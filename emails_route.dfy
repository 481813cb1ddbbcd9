/**
  The `/api/emails` route. GET lists the user's recent Gmail messages
  (id, Subject header, snippet); POST classifies a list of such messages one
  after the other. Gmail and the inference service are given as abstract
  inputs.
 */
module EmailsRoute {
  import opened Wrappers
  import opened Text
  import opened ClassifyEmails

  /** The `details` of a 500 response: the error's message, or
      "Unknown error" for a thrown value without one. */
  function Details(e: Thrown): (details: string)
    ensures e.Error? ==> details == e.message
    ensures e.NonError? ==> details == "Unknown error"
  {
    match e
    case Error(_, message) => message
    case NonError => "Unknown error"
  }

  // ---------------------------------------------------------------------
  // GET
  // ---------------------------------------------------------------------

  /** `headersList.get('authorization')?.split(' ')[1]`: the second
      space-separated field of the Authorization header, if there is one. */
  function AccessToken(authorization: Option<string>): (token: Option<string>)
    ensures authorization.None? ==> token.None?
    ensures authorization.Some? ==> (token.Some? <==> ' ' in authorization.value)
    ensures token.Some? ==> ' ' !in token.value
  {
    match authorization
    case None => None
    case Some(h) => At(Split(h, ' '), 1)
  }

  /** `!accessToken` is false: a token is present and not empty. */
  predicate HasToken(authorization: Option<string>)
    ensures HasToken(authorization) ==> authorization.Some? && ' ' in authorization.value
    ensures HasToken(authorization) ==> AccessToken(authorization).Some? && AccessToken(authorization).value != ""
  {
    var token := AccessToken(authorization);
    token.Some? && token.value != ""
  }

  /** In "x y z..." the second field is y. */
  lemma SecondFieldBeforeMore(x: string, y: string, more: string, sep: char)
    requires sep !in x && sep !in y
    ensures Split(x + [sep] + (y + ([sep] + more)), sep)[1..] == [y] + Split(more, sep)
  {
    SplitAfterField(x, sep, y + ([sep] + more));
    assert y + ([sep] + more) == y + [sep] + more;
    SplitAfterField(y, sep, more);
  }

  /** "x y" followed by nothing or by a separator and more: the second
      field is y. */
  lemma SecondField(x: string, y: string, rest: string, sep: char)
    requires sep !in x && sep !in y
    requires rest == [] || rest[0] == sep
    ensures |Split(x + [sep] + (y + rest), sep)| >= 2
    ensures Split(x + [sep] + (y + rest), sep)[1] == y
  {
    if rest == [] {
      assert y + rest == y;
      SplitAfterField(x, sep, y);
    } else {
      assert rest == [sep] + rest[1..];
      SecondFieldBeforeMore(x, y, rest[1..], sep);
    }
  }

  /** A header "<scheme> <token>", possibly followed by more space-separated
      fields, yields exactly the token. */
  lemma {:induction false} BearerToken(scheme: string, token: string, rest: string)
    requires ' ' !in scheme && ' ' !in token
    requires rest == [] || rest[0] == ' '
    ensures AccessToken(Some(scheme + " " + token + rest)) == Some(token)
  {
    assert scheme + " " + token + rest == scheme + [' '] + (token + rest);
    SecondField(scheme, token, rest, ' ');
  }

  /** The first field of a split is empty exactly when the string is empty
      or starts with the separator. */
  lemma FirstFieldEmpty(s: string, sep: char)
    ensures Split(s, sep)[0] == "" <==> s == [] || s[0] == sep
  {
    if sep in s {
      var k := IndexOf(s, sep);
      assert Split(s, sep)[0] == s[..k];
    }
  }

  /** The token is the empty string exactly when the header has a space that
      is followed by another space or by nothing: "Bearer  x" and "Bearer "
      are refused like a header without a space. */
  lemma {:induction false} EmptyToken(h: string)
    ensures AccessToken(Some(h)) == Some("") <==>
      ' ' in h && (IndexOf(h, ' ') + 1 == |h| || h[IndexOf(h, ' ') + 1] == ' ')
  {
    if ' ' in h {
      var k := IndexOf(h, ' ');
      SplitAtFirst(h, ' ', k);
      FirstFieldEmpty(h[k + 1..], ' ');
    }
  }

  /** `searchParams.get('count') || '15'`: the query parameter unless it is
      absent or empty, in which case "15"; never empty. */
  function Count(param: Option<string>): (count: string)
    ensures count != ""
    ensures param.Some? && param.value != "" ==> count == param.value
    ensures param.None? || param.value == "" ==> count == "15"
  {
    if param.Some? && param.value != "" then param.value else "15"
  }

  /** A message header; Gmail may leave either part out. */
  datatype Header = Header(name: Option<string>, value: Option<string>)

  /** `headers.find(h => h.name === 'Subject')`, as an index (-1 if none):
      the first header named exactly "Subject". */
  function FindSubject(headers: seq<Header>): (k: int)
    ensures -1 <= k < |headers|
    ensures k == -1 <==> forall j :: 0 <= j < |headers| ==> headers[j].name != Some("Subject")
    ensures k >= 0 ==> headers[k].name == Some("Subject")
    ensures forall j :: 0 <= j < k ==> headers[j].name != Some("Subject")
  {
    if headers == [] then -1
    else if headers[0].name == Some("Subject") then 0
    else
      var k := FindSubject(headers[1..]);
      assert forall j :: 1 <= j < |headers| ==> headers[j] == headers[1..][j - 1];
      if k == -1 then -1 else k + 1
  }

  /** `payload?.headers?.find(...)?.value`: the subject of a message. */
  function SubjectOf(headers: Option<seq<Header>>): (subject: Option<string>)
    ensures headers.None? ==> subject.None?
    ensures subject.Some? ==>
      exists k :: 0 <= k < |headers.value| && headers.value[k].name == Some("Subject") && headers.value[k].value == subject
  {
    match headers
    case None => None
    case Some(hs) =>
      var k := FindSubject(hs);
      if k < 0 then None else hs[k].value
  }

  /** The subject is the value of the first header named exactly "Subject";
      headers named otherwise (including "subject") are skipped. */
  lemma SubjectIsFirstSubjectHeader(hs: seq<Header>, k: nat)
    requires k < |hs| && hs[k].name == Some("Subject")
    requires forall j :: 0 <= j < k ==> hs[j].name != Some("Subject")
    ensures SubjectOf(Some(hs)) == hs[k].value
  {
    var f := FindSubject(hs);
    assert f == k;
  }

  /** Without a header named "Subject", the subject is undefined. */
  lemma NoSubjectHeader(hs: seq<Header>)
    requires forall j :: 0 <= j < |hs| ==> hs[j].name != Some("Subject")
    ensures SubjectOf(Some(hs)) == None
  {
  }

  /** An entry of the message list; its id may be missing. */
  datatype MessageRef = MessageRef(id: Option<string>)

  /** A fetched message: its id, its payload's headers and its snippet. */
  datatype Message = Message(id: Option<string>, headers: Option<seq<Header>>, snippet: Option<string>)

  /** The Gmail client, authorised with the access token: listing up to
      `count` messages (`Success(None)` when the response has no `messages`),
      and fetching one message by id. Either may throw. */
  datatype Gmail = Gmail(
    list: (string, string) -> Result<Option<seq<MessageRef>>, Thrown>,
    get: (string, Option<string>) -> Result<Message, Thrown>)

  /** One entry of GET's answer. */
  datatype Listed = Listed(id: Option<string>, subject: Option<string>, snippet: Option<string>)

  datatype GetResponse =
    | NoAccessToken               // 401 "No access token provided"
    | Emails(emails: seq<Listed>) // 200 { emails }
    | FetchFailed(details: string) // 500 "Failed to fetch emails"

  function Fetch(gmail: Gmail, token: string, ref: MessageRef): Result<Message, Thrown> {
    gmail.get(token, ref.id)
  }

  function Summary(m: Message): Listed {
    Listed(m.id, SubjectOf(m.headers), m.snippet)
  }

  /** The per-message fetches, combined as `Promise.all` does: all results
      in list order, or an error of a fetch that failed. */
  function FetchAll(gmail: Gmail, token: string, refs: seq<MessageRef>): (r: Result<seq<Listed>, Thrown>)
    ensures r.Success? <==> forall i :: 0 <= i < |refs| ==> Fetch(gmail, token, refs[i]).Success?
    ensures r.Success? ==> |r.value| == |refs|
    ensures r.Success? ==>
      forall i :: 0 <= i < |refs| ==> r.value[i] == Summary(Fetch(gmail, token, refs[i]).value)
    ensures r.Failure? ==> exists k :: 0 <= k < |refs| && Fetch(gmail, token, refs[k]) == Failure(r.error)
    decreases |refs|
  {
    if refs == [] then Success([])
    else
      assert forall i :: 1 <= i < |refs| ==> refs[i] == refs[1..][i - 1];
      match Fetch(gmail, token, refs[0])
      case Failure(e) => Failure(e)
      case Success(m) =>
        match FetchAll(gmail, token, refs[1..])
        case Failure(e) =>
          assert exists k :: 1 <= k < |refs| && Fetch(gmail, token, refs[k]) == Failure(e);
          Failure(e)
        case Success(rest) => Success([Summary(m)] + rest)
  }

  /** `GET`: 401 without a usable token (Gmail untouched); otherwise list up
      to `count` messages, fetch each, and answer with id, subject and
      snippet per message, in list order; any Gmail error gives 500. */
  function Get(authorization: Option<string>, countParam: Option<string>, gmail: Gmail): (r: GetResponse)
    ensures r.NoAccessToken? <==> !HasToken(authorization)
    ensures HasToken(authorization) ==>
      var listing := gmail.list(AccessToken(authorization).value, Count(countParam));
      && (listing == Success(None) ==> r == Emails([]))
      && (listing.Failure? ==> r == FetchFailed(Details(listing.error)))
      && (listing.Success? && listing.value.Some? ==>
            var refs := listing.value.value;
            var token := AccessToken(authorization).value;
            && (r.Emails? <==> forall i :: 0 <= i < |refs| ==> Fetch(gmail, token, refs[i]).Success?)
            && (r.Emails? ==>
                  && |r.emails| == |refs|
                  && forall i :: 0 <= i < |refs| ==>
                       var m := Fetch(gmail, token, refs[i]).value;
                       r.emails[i] == Listed(m.id, SubjectOf(m.headers), m.snippet))
            && (r.FetchFailed? ==>
                  exists k :: 0 <= k < |refs| && Fetch(gmail, token, refs[k]).Failure? &&
                    r.details == Details(Fetch(gmail, token, refs[k]).error)))
  {
    var token := AccessToken(authorization);
    var count := Count(countParam);
    if token.None? || token.value == "" then NoAccessToken
    else
      match gmail.list(token.value, count)
      case Failure(e) => FetchFailed(Details(e))
      case Success(None) => Emails([])
      case Success(Some(refs)) =>
        match FetchAll(gmail, token.value, refs)
        case Failure(e) => FetchFailed(Details(e))
        case Success(emails) => Emails(emails)
  }

  /** Without a usable token the answer is 401 whatever Gmail would do. */
  lemma {:induction false} UnauthorizedBeforeGmail(authorization: Option<string>, countParam: Option<string>, g1: Gmail, g2: Gmail)
    requires !HasToken(authorization)
    ensures Get(authorization, countParam, g1) == Get(authorization, countParam, g2) == NoAccessToken
  {
  }

  // ---------------------------------------------------------------------
  // POST
  // ---------------------------------------------------------------------

  /** A message as the client posts it back; `...email` keeps its fields. */
  datatype PostedEmail = PostedEmail(
    id: Option<string>,
    subject: Option<string>,
    snippet: Option<string>,
    classification: Option<Classification>)

  datatype PostResponse =
    | MissingEmails                          // 400 "Missing emails"
    | ClassifiedEmails(emails: seq<PostedEmail>) // 200 { classifiedEmails }
    | ClassifyFailed(details: string)        // 500 "Failed to classify emails"

  /** `s || ''`: an undefined (or empty) string becomes the empty string. */
  function OrEmpty(s: Option<string>): (r: string)
    ensures s.Some? ==> r == s.value
    ensures s.None? ==> r == ""
  {
    match s
    case None => ""
    case Some(v) => v
  }

  /** What the classifier is given for a posted message. */
  function ClassifierInput(e: PostedEmail): (input: Email)
    ensures e.subject.Some? ==> input.subject == e.subject.value
    ensures e.subject.None? ==> input.subject == ""
    ensures e.snippet.Some? ==> input.body == e.snippet.value
    ensures e.snippet.None? ==> input.body == ""
  {
    Email(OrEmpty(e.subject), OrEmpty(e.snippet))
  }

  /** The i-th classifier call of a batch, whose network outcome is
      `network(i)`. */
  function Call(emails: seq<PostedEmail>, network: nat -> Outcome, i: nat): Result<Classification, Thrown>
    requires i < |emails|
  {
    ClassifyEmail(ClassifierInput(emails[i]), network(i))
  }

  /** `POST`: refuse a missing or empty list with 400; otherwise classify the
      messages one at a time in order, the i-th call seeing `network(i)`,
      and answer with every message, classification set, in input order;
      the first call that throws ends the batch with 500 and no list. */
  method Post(emails: Option<seq<PostedEmail>>, network: nat -> Outcome) returns (response: PostResponse)
    ensures response == MissingEmails <==> emails.None? || emails.value == []
    ensures response.ClassifiedEmails? <==>
      emails.Some? && emails.value != [] &&
      forall i :: 0 <= i < |emails.value| ==> Call(emails.value, network, i).Success?
    ensures response.ClassifiedEmails? ==>
      && |response.emails| == |emails.value|
      && forall i :: 0 <= i < |emails.value| ==>
           response.emails[i] == emails.value[i].(classification := Some(Call(emails.value, network, i).value))
    ensures response.ClassifyFailed? ==>
      exists k ::
        && 0 <= k < |emails.value|
        && Call(emails.value, network, k).Failure?
        && response.details == Details(Call(emails.value, network, k).error)
        && forall j :: 0 <= j < k ==> Call(emails.value, network, j).Success?
  {
    if emails.None? || |emails.value| == 0 {
      return MissingEmails;
    }
    var input := emails.value;
    var classified: seq<PostedEmail> := [];
    var i := 0;
    while i < |input|
      invariant 0 <= i <= |input|
      invariant |classified| == i
      invariant forall j :: 0 <= j < i ==> Call(input, network, j).Success?
      invariant forall j :: 0 <= j < i ==>
        classified[j] == input[j].(classification := Some(Call(input, network, j).value))
    {
      var classification := ClassifyEmail(ClassifierInput(input[i]), network(i));
      if classification.Failure? {
        assert Call(input, network, i).Failure?;
        return ClassifyFailed(Details(classification.error));
      }
      classified := classified + [input[i].(classification := Some(classification.value))];
      i := i + 1;
    }
    return ClassifiedEmails(classified);
  }
}
