/**
  The email classifier: a remote zero-shot classification call whose answer
  is given here as an abstract outcome, and the keyword rules it falls back
  on when that call is aborted or times out.
 */
module ClassifyEmails {
  import opened Wrappers
  import opened Text

  /** What the classifier is given: a subject and a body. */
  datatype Email = Email(subject: string, body: string)

  /** A label and a confidence. Either field is `undefined` (None) when the
      service's lists are too short for the index the code reads. */
  datatype Classification = Classification(category: Option<string>, score: Option<real>)

  /** The parsed body of a successful inference response: parallel lists. */
  datatype Reply = Reply(labels: seq<string>, scores: seq<real>)

  /** A thrown value: an `Error` object with its `name` and `message`, or
      anything else that was thrown. */
  datatype Thrown = Error(name: string, message: string) | NonError

  /** What the `fetch` of the inference endpoint produced. */
  datatype Outcome =
    | Ok(reply: Reply)           // response.ok, body parsed
    | NotOk(statusText: string)  // !response.ok
    | Threw(error: Thrown)       // fetch or response.json() rejected

  /** One keyword group of the fallback rules. */
  datatype KeywordGroup = KeywordGroup(category: string, keywords: seq<string>)

  /** The labels offered to the service, in order. */
  const CandidateLabels: seq<string> := ["important", "promotional", "social", "marketing", "spam"]

  /** The fallback's label when no keyword group matches; the service is
      never offered it. */
  const OtherLabel: string := "other"

  /** The fallback rules in priority order; the earlier group wins. */
  const Rules: seq<KeywordGroup> := [
    KeywordGroup("important", ["invoice", "meeting", "urgent"]),
    KeywordGroup("promotional", ["unsubscribe", "newsletter", "offer"]),
    KeywordGroup("social", ["friend", "party", "event"]),
    KeywordGroup("marketing", ["marketing", "campaign"]),
    KeywordGroup("spam", ["win", "prize", "lottery"])
  ]

  /** What the 30-second timer's `controller.abort()` makes `fetch` reject with. */
  const TimerAbort: Thrown := Error("AbortError", "This operation was aborted")

  /** The message prefix of the error thrown for a non-ok response. */
  const ApiErrorPrefix: string := "Hugging Face API error: "

  // ---------------------------------------------------------------------
  // Rule-based fallback
  // ---------------------------------------------------------------------

  /** The text the keyword rules search: subject, one space, body, lower-cased. */
  function FallbackText(email: Email): (text: string)
    ensures |text| == |email.subject| + 1 + |email.body|
    ensures text[|email.subject|] == ' '
    ensures forall i :: 0 <= i < |text| ==> !IsUpperAscii(text[i])
  {
    Lower(email.subject + " " + email.body)
  }

  /** `ruleBasedClassify`: five keyword groups tried in a fixed order; the
      first group with a keyword in the text gives the label, none gives
      "other"; the score is always 1. */
  function RuleBasedClassify(email: Email): (c: Classification)
    ensures c.score == Some(1.0)
    ensures c.category.Some? && (c.category.value in CandidateLabels || c.category.value == OtherLabel)
  {
    var text := FallbackText(email);
    if Includes(text, "invoice") || Includes(text, "meeting") || Includes(text, "urgent") then
      Classification(Some("important"), Some(1.0))
    else if Includes(text, "unsubscribe") || Includes(text, "newsletter") || Includes(text, "offer") then
      Classification(Some("promotional"), Some(1.0))
    else if Includes(text, "friend") || Includes(text, "party") || Includes(text, "event") then
      Classification(Some("social"), Some(1.0))
    else if Includes(text, "marketing") || Includes(text, "campaign") then
      Classification(Some("marketing"), Some(1.0))
    else if Includes(text, "win") || Includes(text, "prize") || Includes(text, "lottery") then
      Classification(Some("spam"), Some(1.0))
    else
      Classification(Some(OtherLabel), Some(1.0))
  }

  /** Some keyword of the group occurs in the text. */
  predicate GroupMatches(text: string, g: KeywordGroup) {
    exists i :: 0 <= i < |g.keywords| && Includes(text, g.keywords[i])
  }

  /** Reference definition of the rules: the label of the first matching
      group of a table, or "other". */
  function FirstMatch(text: string, rules: seq<KeywordGroup>): (r: string)
    ensures r == OtherLabel || exists i :: 0 <= i < |rules| && GroupMatches(text, rules[i]) && r == rules[i].category
    decreases |rules|
  {
    if rules == [] then OtherLabel
    else if GroupMatches(text, rules[0]) then rules[0].category
    else
      var r := FirstMatch(text, rules[1..]);
      assert forall i :: 0 <= i < |rules| - 1 ==> rules[1..][i] == rules[i + 1];
      r
  }

  /** The group labels are pairwise distinct and none of them is "other". */
  predicate DistinctLabels(rules: seq<KeywordGroup>) {
    && (forall i :: 0 <= i < |rules| ==> rules[i].category != OtherLabel)
    && (forall i, j :: 0 <= i < j < |rules| ==> rules[i].category != rules[j].category)
  }

  lemma GroupMatchesThree(text: string, g: KeywordGroup)
    requires |g.keywords| == 3
    ensures GroupMatches(text, g) <==>
      Includes(text, g.keywords[0]) || Includes(text, g.keywords[1]) || Includes(text, g.keywords[2])
  {
    if GroupMatches(text, g) {
      var i :| 0 <= i < 3 && Includes(text, g.keywords[i]);
      assert i == 0 || i == 1 || i == 2;
    }
  }

  lemma GroupMatchesTwo(text: string, g: KeywordGroup)
    requires |g.keywords| == 2
    ensures GroupMatches(text, g) <==> Includes(text, g.keywords[0]) || Includes(text, g.keywords[1])
  {
    if GroupMatches(text, g) {
      var i :| 0 <= i < 2 && Includes(text, g.keywords[i]);
      assert i == 0 || i == 1;
    }
  }

  /** The chain of conditionals in `ruleBasedClassify` is exactly the
      first-match reading of the rule table. */
  lemma RuleBasedFollowsTable(email: Email)
    ensures RuleBasedClassify(email).category == Some(FirstMatch(FallbackText(email), Rules))
  {
    var text := FallbackText(email);
    GroupMatchesThree(text, Rules[0]);
    GroupMatchesThree(text, Rules[1]);
    GroupMatchesThree(text, Rules[2]);
    GroupMatchesTwo(text, Rules[3]);
    GroupMatchesThree(text, Rules[4]);
    assert Rules[1..][1..][1..][1..][1..] == [];
  }

  /** First match wins, for any table with distinct labels: the result is
      group k's label exactly when group k matches and no earlier one does. */
  lemma {:induction false} FirstMatchIsFirst(text: string, rules: seq<KeywordGroup>, k: nat)
    requires DistinctLabels(rules)
    requires k < |rules|
    ensures FirstMatch(text, rules) == rules[k].category <==>
      GroupMatches(text, rules[k]) && forall j :: 0 <= j < k ==> !GroupMatches(text, rules[j])
    decreases |rules|
  {
    if k > 0 && !GroupMatches(text, rules[0]) {
      var tail := rules[1..];
      assert DistinctLabels(tail) by {
        forall i, j | 0 <= i < j < |tail| ensures tail[i].category != tail[j].category {
          assert tail[i] == rules[i + 1] && tail[j] == rules[j + 1];
        }
      }
      FirstMatchIsFirst(text, tail, k - 1);
      assert forall j :: 0 < j < k ==> rules[j] == tail[j - 1];
    }
  }

  /** "other" comes out exactly when no group matches. */
  lemma {:induction false} FirstMatchOther(text: string, rules: seq<KeywordGroup>)
    requires DistinctLabels(rules)
    ensures FirstMatch(text, rules) == OtherLabel <==>
      forall k :: 0 <= k < |rules| ==> !GroupMatches(text, rules[k])
    decreases |rules|
  {
    if rules != [] && !GroupMatches(text, rules[0]) {
      var tail := rules[1..];
      assert DistinctLabels(tail) by {
        forall i, j | 0 <= i < j < |tail| ensures tail[i].category != tail[j].category {
          assert tail[i] == rules[i + 1] && tail[j] == rules[j + 1];
        }
      }
      FirstMatchOther(text, tail);
      assert forall k :: 0 < k < |rules| ==> rules[k] == tail[k - 1];
    }
  }

  /** The five labels of the keyword table differ from each other and from
      "other". */
  lemma RulesDistinct()
    ensures DistinctLabels(Rules)
  {
  }

  /** The priority order of `ruleBasedClassify`: group k's label is chosen
      exactly when a keyword of group k occurs in the lower-cased text and
      no keyword of an earlier group does. */
  lemma PriorityOrder(email: Email, k: nat)
    requires k < |Rules|
    ensures RuleBasedClassify(email).category == Some(Rules[k].category) <==>
      GroupMatches(FallbackText(email), Rules[k]) &&
      forall j :: 0 <= j < k ==> !GroupMatches(FallbackText(email), Rules[j])
  {
    RuleBasedFollowsTable(email);
    RulesDistinct();
    FirstMatchIsFirst(FallbackText(email), Rules, k);
  }

  /** "other" exactly when no keyword of any group occurs. */
  lemma OtherWhenNoGroupMatches(email: Email)
    ensures RuleBasedClassify(email).category == Some(OtherLabel) <==>
      forall k :: 0 <= k < |Rules| ==> !GroupMatches(FallbackText(email), Rules[k])
  {
    RuleBasedFollowsTable(email);
    RulesDistinct();
    FirstMatchOther(FallbackText(email), Rules);
  }

  /** The rule labels are the candidate labels, in the same order. */
  lemma RuleLabelsAreCandidates()
    ensures |Rules| == |CandidateLabels|
    ensures forall k :: 0 <= k < |Rules| ==> Rules[k].category == CandidateLabels[k]
  {
  }

  /** An email mentioning both an "important" and a "promotional" keyword is
      "important": the earlier group wins. */
  lemma InvoiceBeatsUnsubscribe(subject: string, body: string)
    requires Includes(Lower(subject), "invoice")
    requires Includes(Lower(body), "unsubscribe")
    ensures RuleBasedClassify(Email(subject, body)) == Classification(Some("important"), Some(1.0))
  {
    FallbackTextSplits(Email(subject, body));
    IncludesAcrossSeparator(Lower(subject), ' ', Lower(body), "invoice");
  }

  /** The fallback text's lower-cased subject and body, joined by the space. */
  lemma FallbackTextSplits(email: Email)
    ensures FallbackText(email) == Lower(email.subject) + [' '] + Lower(email.body)
  {
    assert email.subject + " " + email.body == email.subject + ([' '] + email.body);
    LowerAppend(email.subject, [' '] + email.body);
    LowerAppend([' '], email.body);
    assert Lower([' ']) == [' '];
  }

  /** No keyword holds a space. */
  lemma KeywordsHaveNoSpace()
    ensures forall k, i :: 0 <= k < |Rules| && 0 <= i < |Rules[k].keywords| ==> ' ' !in Rules[k].keywords[i]
  {
  }

  /** Subject and body can be searched apart: a keyword is in the fallback
      text exactly when it is in the lower-cased subject or in the
      lower-cased body, since no keyword can straddle the joining space. */
  lemma {:induction false} KeywordInText(email: Email, k: nat, i: nat)
    requires k < |Rules| && i < |Rules[k].keywords|
    ensures Includes(FallbackText(email), Rules[k].keywords[i]) <==>
      Includes(Lower(email.subject), Rules[k].keywords[i]) || Includes(Lower(email.body), Rules[k].keywords[i])
  {
    FallbackTextSplits(email);
    KeywordsHaveNoSpace();
    IncludesAcrossSeparator(Lower(email.subject), ' ', Lower(email.body), Rules[k].keywords[i]);
  }

  /** If neither the lower-cased subject nor the lower-cased body contains
      any of the fourteen keywords, the fallback answers "other" with score 1. */
  lemma NoKeywordGivesOther(email: Email)
    requires forall k, i :: 0 <= k < |Rules| && 0 <= i < |Rules[k].keywords| ==>
      !Includes(Lower(email.subject), Rules[k].keywords[i]) && !Includes(Lower(email.body), Rules[k].keywords[i])
    ensures RuleBasedClassify(email) == Classification(Some(OtherLabel), Some(1.0))
  {
    forall k | 0 <= k < |Rules| ensures !GroupMatches(FallbackText(email), Rules[k]) {
      forall i | 0 <= i < |Rules[k].keywords| ensures !Includes(FallbackText(email), Rules[k].keywords[i]) {
        KeywordInText(email, k, i);
      }
    }
    OtherWhenNoGroupMatches(email);
  }

  /** Matching ignores letter case: two emails whose subjects and bodies
      agree once lower-cased are classified alike. */
  lemma CaseInsensitive(e1: Email, e2: Email)
    requires Lower(e1.subject) == Lower(e2.subject) && Lower(e1.body) == Lower(e2.body)
    ensures RuleBasedClassify(e1) == RuleBasedClassify(e2)
  {
    FallbackTextSplits(e1);
    FallbackTextSplits(e2);
  }

  /** Shouting an email does not change its fallback class. */
  lemma UpperCaseSameClass(email: Email)
    ensures RuleBasedClassify(Email(Upper(email.subject), Upper(email.body))) == RuleBasedClassify(email)
  {
    LowerUpper(email.subject);
    LowerUpper(email.body);
    CaseInsensitive(Email(Upper(email.subject), Upper(email.body)), email);
  }

  lemma WindowText()
    ensures FallbackText(Email("Window", "")) == "window "
  {
    FallbackTextSplits(Email("Window", ""));
    assert Lower("Window") == "window";
  }

  lemma WindowMatchesSpam()
    ensures GroupMatches(FallbackText(Email("Window", "")), Rules[4])
  {
    var text := FallbackText(Email("Window", ""));
    WindowText();
    assert OccursAt(text, "win", 0);
    assert Includes(text, Rules[4].keywords[0]);
  }

  /** A text lacking the letters c, e, f, m, p, u and v holds no keyword of
      the first four groups. */
  lemma EarlierGroupsNeedLetters(text: string)
    requires 'c' !in text && 'e' !in text && 'f' !in text && 'm' !in text
    requires 'p' !in text && 'u' !in text && 'v' !in text
    ensures forall j :: 0 <= j < 4 ==> !GroupMatches(text, Rules[j])
  {
    LetterMissing(text, "invoice", 2);
    LetterMissing(text, "meeting", 0);
    LetterMissing(text, "urgent", 0);
    GroupMatchesThree(text, Rules[0]);
    LetterMissing(text, "unsubscribe", 0);
    LetterMissing(text, "newsletter", 1);
    LetterMissing(text, "offer", 1);
    GroupMatchesThree(text, Rules[1]);
    LetterMissing(text, "friend", 0);
    LetterMissing(text, "party", 0);
    LetterMissing(text, "event", 0);
    GroupMatchesThree(text, Rules[2]);
    LetterMissing(text, "marketing", 0);
    LetterMissing(text, "campaign", 0);
    GroupMatchesTwo(text, Rules[3]);
  }

  /** An email whose text matches the spam group and no earlier group is
      spam with score 1, whatever else it contains. */
  lemma SpamWhenNoEarlierGroup(email: Email)
    requires GroupMatches(FallbackText(email), Rules[4])
    requires forall j :: 0 <= j < 4 ==> !GroupMatches(FallbackText(email), Rules[j])
    ensures RuleBasedClassify(email) == Classification(Some("spam"), Some(1.0))
  {
    PriorityOrder(email, 4);
  }

  lemma WindowMatchesNoEarlierGroup()
    ensures forall j :: 0 <= j < 4 ==> !GroupMatches(FallbackText(Email("Window", "")), Rules[j])
  {
    WindowText();
    EarlierGroupsNeedLetters("window ");
  }

  /** Matching is by plain substring: "win" inside "window" makes the email
      spam, since no earlier group matches. */
  lemma WindowIsSpam()
    ensures RuleBasedClassify(Email("Window", "")) == Classification(Some("spam"), Some(1.0))
  {
    WindowMatchesSpam();
    WindowMatchesNoEarlierGroup();
    SpamWhenNoEarlierGroup(Email("Window", ""));
  }

  // ---------------------------------------------------------------------
  // classifyEmail: outcome dispatch
  // ---------------------------------------------------------------------

  /** The `catch` test: an Error that is an abort or whose message mentions a
      time-out is recovered from; anything else is re-thrown. */
  predicate FallsBack(e: Thrown)
    ensures FallsBack(e) ==> e.Error?
    ensures e.Error? && e.name == "AbortError" ==> FallsBack(e)
    ensures e.Error? && Includes(e.message, "timed out") ==> FallsBack(e)
  {
    e.Error? && (e.name == "AbortError" || Includes(e.message, "timed out"))
  }

  /** The `catch` block shared by both classifiers. */
  function Recover(fallback: Email, e: Thrown): (r: Result<Classification, Thrown>)
    ensures r.Success? <==> FallsBack(e)
    ensures r.Success? ==> r.value == RuleBasedClassify(fallback)
    ensures r.Failure? ==> r.error == e
  {
    if FallsBack(e) then Success(RuleBasedClassify(fallback)) else Failure(e)
  }

  /** The error the code throws for a non-ok response. */
  function ApiError(statusText: string): (e: Thrown)
    ensures e.Error? && e.name == "Error"
    ensures |e.message| == |ApiErrorPrefix| + |statusText|
    ensures e.message[..|ApiErrorPrefix|] == ApiErrorPrefix && e.message[|ApiErrorPrefix|..] == statusText
  {
    Error("Error", ApiErrorPrefix + statusText)
  }

  /** `classifyEmail`, with the result of the `fetch` as `outcome`: the top
      entry of the service's lists on success; the keyword rules after an
      abort or a time-out; otherwise the error propagates. */
  function ClassifyEmail(email: Email, outcome: Outcome): (r: Result<Classification, Thrown>)
    ensures outcome.Ok? ==> r.Success?
    ensures r.Failure? ==> !FallsBack(r.error)
    ensures r.Success? && !outcome.Ok? ==> r.value == RuleBasedClassify(email)
    ensures outcome.Threw? && !FallsBack(outcome.error) ==> r == Failure(outcome.error)
  {
    match outcome
    case Ok(reply) => Success(Classification(At(reply.labels, 0), At(reply.scores, 0)))
    case NotOk(statusText) => Recover(email, ApiError(statusText))
    case Threw(e) => Recover(email, e)
  }

  /** On success the answer is the first label with the first score. */
  lemma OkTakesTopEntry(email: Email, labels: seq<string>, scores: seq<real>)
    requires |labels| > 0 && |scores| > 0
    ensures ClassifyEmail(email, Ok(Reply(labels, scores))) ==
      Success(Classification(Some(labels[0]), Some(scores[0])))
  {
  }

  /** An abort (the 30-second timer) or an error whose message mentions
      "timed out" gives exactly the keyword rules' answer. */
  lemma TimeoutFallsBack(email: Email, e: Thrown)
    requires e == TimerAbort || (e.Error? && Includes(e.message, "timed out"))
    ensures ClassifyEmail(email, Threw(e)) == Success(RuleBasedClassify(email))
  {
  }

  /** The prefix of the API error message does not contain "timed out". */
  lemma PrefixHasNoTimeout()
    ensures !Includes(ApiErrorPrefix, "timed out")
  {
    LetterMissing(ApiErrorPrefix, "timed out", 0);
  }

  /** "timed out" is found in the API error message exactly when it is found
      in the status text: it cannot start inside the prefix. */
  lemma {:induction false} ApiErrorMentionsTimeout(statusText: string)
    ensures Includes(ApiErrorPrefix + statusText, "timed out") <==> Includes(statusText, "timed out")
  {
    var p, w, t := ApiErrorPrefix, "timed out", ApiErrorPrefix + statusText;
    if Includes(t, w) {
      var i :| OccursAt(t, w, i);
      if i + |w| <= |p| {
        OccursInLeft(p, statusText, w, i);
        PrefixHasNoTimeout();
        assert false;
      } else if i >= |p| {
        OccursInRight(p, statusText, w, i);
      } else if i <= |p| - 2 {
        OccurrenceCovers(t, w, i, |p| - 2);
        assert false;
      } else {
        OccurrenceCovers(t, w, i, |p| - 1);
        assert false;
      }
    }
    if Includes(statusText, w) {
      var i :| OccursAt(statusText, w, i);
      OccursStillInRight(p, statusText, w, i);
    }
  }

  /** A non-ok response raises "Hugging Face API error: " + statusText, and
      that error is recovered from only if the status text mentions
      "timed out". */
  lemma {:induction false} NotOkResult(email: Email, statusText: string)
    ensures ClassifyEmail(email, NotOk(statusText)) ==
      if Includes(statusText, "timed out") then Success(RuleBasedClassify(email))
      else Failure(Error("Error", ApiErrorPrefix + statusText))
  {
    ApiErrorMentionsTimeout(statusText);
  }

  /** Every label the classifier gives is a candidate label or "other", and
      every score lies in [0, 1], whenever the service answers within its
      candidate set with a probability. */
  lemma LabelAndScoreInRange(email: Email, outcome: Outcome)
    requires outcome.Ok? ==>
      |outcome.reply.labels| > 0 && outcome.reply.labels[0] in CandidateLabels &&
      |outcome.reply.scores| > 0 && 0.0 <= outcome.reply.scores[0] <= 1.0
    ensures ClassifyEmail(email, outcome).Success? ==>
      var c := ClassifyEmail(email, outcome).value;
      c.category.Some? && (c.category.value in CandidateLabels || c.category.value == OtherLabel) &&
      c.score.Some? && 0.0 <= c.score.value <= 1.0
  {
  }

  // ---------------------------------------------------------------------
  // classifyEmailWithHuggingFace: first index of the largest score
  // ---------------------------------------------------------------------

  /** `k` is the first index holding the largest score. */
  predicate IsFirstMax(s: seq<real>, k: int) {
    && 0 <= k < |s|
    && (forall j :: 0 <= j < |s| ==> s[j] <= s[k])
    && (forall j :: 0 <= j < k ==> s[j] < s[k])
  }

  /** `Math.max(...s)` on a non-empty list. */
  function MaxOf(s: seq<real>): (m: real)
    requires |s| > 0
    ensures m in s
    ensures forall j :: 0 <= j < |s| ==> s[j] <= m
  {
    if |s| == 1 then s[0]
    else
      var m := MaxOf(s[1..]);
      assert forall j :: 1 <= j < |s| ==> s[j] == s[1..][j - 1];
      if s[0] >= m then s[0] else m
  }

  /** `scores.indexOf(Math.max(...scores))`: the first index of the largest
      score, and -1 for an empty list (`Math.max()` is -Infinity). */
  function FirstMaxIndex(scores: seq<real>): (k: int)
    ensures scores == [] ==> k == -1
    ensures scores != [] ==> IsFirstMax(scores, k)
  {
    if scores == [] then -1
    else
      var k := IndexOf(scores, MaxOf(scores));
      assert forall j :: 0 <= j < k ==> scores[j] == scores[..k][j];
      k
  }

  /** `classifyEmailWithHuggingFace`, with the result of the `axios.post` as
      `outcome`: the label and score at the first index of the largest score;
      after an abort or a time-out, the keyword rules applied to an empty
      subject and the email text as body; otherwise the error propagates. */
  function ClassifyEmailWithHuggingFace(email: string, outcome: Result<Reply, Thrown>): (r: Result<Classification, Thrown>)
    ensures outcome.Success? && outcome.value.scores != [] ==>
      r.Success? && r.value.score.Some? &&
      exists k :: IsFirstMax(outcome.value.scores, k) &&
        r.value == Classification(At(outcome.value.labels, k), Some(outcome.value.scores[k]))
    ensures outcome.Success? && outcome.value.scores == [] ==> r == Success(Classification(None, None))
    ensures outcome.Failure? ==> r == Recover(Email("", email), outcome.error)
  {
    match outcome
    case Success(reply) =>
      var k := FirstMaxIndex(reply.scores);
      Success(Classification(At(reply.labels, k), At(reply.scores, k)))
    case Failure(e) => Recover(Email("", email), e)
  }

  /** The chosen score is the largest one, and no earlier score equals it. */
  lemma HuggingFacePicksFirstMax(email: string, labels: seq<string>, scores: seq<real>)
    requires |scores| > 0 && |labels| >= |scores|
    ensures var r := ClassifyEmailWithHuggingFace(email, Success(Reply(labels, scores)));
      r.Success? && r.value.category.Some? && r.value.score.Some? &&
      (forall j :: 0 <= j < |scores| ==> scores[j] <= r.value.score.value) &&
      exists k :: 0 <= k < |scores| && r.value.category.value == labels[k] && r.value.score.value == scores[k] &&
        forall j :: 0 <= j < k ==> scores[j] < scores[k]
  {
    var k := FirstMaxIndex(scores);
    assert 0 <= k < |scores| && k < |labels|;
  }

  /** The time-out path classifies the text as a body with an empty subject. */
  lemma HuggingFaceTimeoutFallsBack(email: string, e: Thrown)
    requires e == TimerAbort || (e.Error? && Includes(e.message, "timed out"))
    ensures ClassifyEmailWithHuggingFace(email, Failure(e)) == Success(RuleBasedClassify(Email("", email)))
  {
  }
}
