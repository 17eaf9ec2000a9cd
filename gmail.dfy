/** The Gmail client wrapper: credential validation when the client is
    constructed, and the validation, message building and delivery-outcome
    mapping of `sendEmail`. The transport itself is a parameter. */
module Gmail {
  import opened Wrappers
  import RecipientList

  // ---------------------------------------------------------------------
  // Presence
  // ---------------------------------------------------------------------

  /** A string argument counts as given when it is defined and not empty
      (JavaScript truthiness restricted to strings). */
  predicate Present(o: Option<string>)
  {
    o.Some? && o.value != ""
  }

  /** A recipient list counts as given when it is defined and not empty. */
  predicate HasAddresses(o: Option<seq<string>>)
  {
    o.Some? && o.value != []
  }

  // ---------------------------------------------------------------------
  // Construction: the five OAuth2 credentials
  // ---------------------------------------------------------------------

  /** The credentials, in the order in which the constructor checks them. */
  datatype Credential = User | ClientId | ClientSecret | AccessToken | RefreshToken

  function CredentialRank(c: Credential): nat
  {
    match c
    case User => 0
    case ClientId => 1
    case ClientSecret => 2
    case AccessToken => 3
    case RefreshToken => 4
  }

  function MissingCredentialMessage(c: Credential): string
  {
    match c
    case User => "OAuth2 user is missing"
    case ClientId => "OAuth2 client id is missing"
    case ClientSecret => "OAuth2 client secret is missing"
    case AccessToken => "OAuth2 access token is missing."
    case RefreshToken => "OAuth2 refresh token is missing. Please obtain refresh token and put in your configuration"
  }

  /** Name of the own property in which a constructed client keeps `c`. */
  function PropertyName(c: Credential): string
  {
    match c
    case User => "_user"
    case ClientId => "_id"
    case ClientSecret => "_secret"
    case AccessToken => "_accessToken"
    case RefreshToken => "_refreshToken"
  }

  /** The positional arguments of `new Gmail(user, clientId, clientSecret,
      accessToken, refreshToken)`; trailing arguments left off are `None`. */
  datatype CredentialArgs = CredentialArgs(
    user: Option<string>,
    clientId: Option<string>,
    clientSecret: Option<string>,
    accessToken: Option<string>,
    refreshToken: Option<string>)
  {
    function Get(c: Credential): Option<string>
    {
      match c
      case User => user
      case ClientId => clientId
      case ClientSecret => clientSecret
      case AccessToken => accessToken
      case RefreshToken => refreshToken
    }
  }

  /** A constructed client: immutable, holding the five credentials. */
  datatype Client = Client(
    user: string,
    id: string,
    secret: string,
    accessToken: string,
    refreshToken: string)
  {
    function Get(c: Credential): string
    {
      match c
      case User => user
      case ClientId => id
      case ClientSecret => secret
      case AccessToken => accessToken
      case RefreshToken => refreshToken
    }

    /** The object's own enumerable properties, as a deep equality sees them. */
    function OwnProperties(): map<string, string>
    {
      map[PropertyName(User) := user,
          PropertyName(ClientId) := id,
          PropertyName(ClientSecret) := secret,
          PropertyName(AccessToken) := accessToken,
          PropertyName(RefreshToken) := refreshToken]
    }
  }

  /** `new Gmail(...)`: checks the credentials in order and throws on the
      first missing one; otherwise stores all five unchanged. */
  function MakeClient(args: CredentialArgs): (r: Result<Client, string>)
    ensures r.Ok? ==> forall c :: Some(r.value.Get(c)) == args.Get(c)
  {
    if !Present(args.user) then Err(MissingCredentialMessage(User))
    else if !Present(args.clientId) then Err(MissingCredentialMessage(ClientId))
    else if !Present(args.clientSecret) then Err(MissingCredentialMessage(ClientSecret))
    else if !Present(args.accessToken) then Err(MissingCredentialMessage(AccessToken))
    else if !Present(args.refreshToken) then Err(MissingCredentialMessage(RefreshToken))
    else Ok(Client(args.user.value, args.clientId.value, args.clientSecret.value,
                   args.accessToken.value, args.refreshToken.value))
  }

  /** Construction succeeds exactly when all five credentials are given. */
  lemma MakeClientSucceedsIffAllPresent(args: CredentialArgs)
    ensures MakeClient(args).Ok? <==> forall c :: Present(args.Get(c))
  {
    if !Present(args.user) {
      assert !Present(args.Get(User));
    } else if !Present(args.clientId) {
      assert !Present(args.Get(ClientId));
    } else if !Present(args.clientSecret) {
      assert !Present(args.Get(ClientSecret));
    } else if !Present(args.accessToken) {
      assert !Present(args.Get(AccessToken));
    } else if !Present(args.refreshToken) {
      assert !Present(args.Get(RefreshToken));
    }
  }

  /** Each credential has its own error message, so the message names the
      missing credential. */
  lemma MissingCredentialMessageInjective(c: Credential, d: Credential)
    ensures MissingCredentialMessage(c) == MissingCredentialMessage(d) <==> c == d
  {
  }

  /** Construction fails with the message of `c` exactly when `c` is missing
      and every credential checked before it is given: the first missing
      credential, in the fixed order, decides the error. */
  lemma MakeClientReportsFirstMissing(args: CredentialArgs, c: Credential)
    ensures MakeClient(args) == Err(MissingCredentialMessage(c)) <==>
            !Present(args.Get(c)) && forall d :: CredentialRank(d) < CredentialRank(c) ==> Present(args.Get(d))
  {
    forall d ensures MissingCredentialMessage(d) == MissingCredentialMessage(c) ==> d == c {
      MissingCredentialMessageInjective(c, d);
    }
    match c
    case User =>
    case ClientId =>
      assert CredentialRank(User) < CredentialRank(c);
    case ClientSecret =>
      assert CredentialRank(User) < CredentialRank(c);
      assert CredentialRank(ClientId) < CredentialRank(c);
    case AccessToken =>
      assert CredentialRank(User) < CredentialRank(c);
      assert CredentialRank(ClientId) < CredentialRank(c);
      assert CredentialRank(ClientSecret) < CredentialRank(c);
    case RefreshToken =>
      assert CredentialRank(User) < CredentialRank(c);
      assert CredentialRank(ClientId) < CredentialRank(c);
      assert CredentialRank(ClientSecret) < CredentialRank(c);
      assert CredentialRank(AccessToken) < CredentialRank(c);
  }

  /** A constructed client has exactly the five own properties `_user`,
      `_id`, `_secret`, `_accessToken` and `_refreshToken`, each holding the
      argument it was given. */
  lemma MakeClientStoresVerbatim(args: CredentialArgs)
    requires MakeClient(args).Ok?
    ensures MakeClient(args).value.OwnProperties().Keys ==
            {"_user", "_id", "_secret", "_accessToken", "_refreshToken"}
    ensures forall c :: MakeClient(args).value.OwnProperties()[PropertyName(c)] == args.Get(c).value
  {
  }

  // ---------------------------------------------------------------------
  // sendEmail: validation
  // ---------------------------------------------------------------------

  /** The recipients object `{to, cc, bcc}`; an absent, `null` or
      `undefined` property is `None`. */
  datatype Recipients = Recipients(
    to: Option<seq<string>>,
    cc: Option<seq<string>>,
    bcc: Option<seq<string>>)

  /** The arguments of `sendEmail(sender, recipients, subject, content)`. */
  datatype SendArgs = SendArgs(
    sender: Option<string>,
    recipients: Option<Recipients>,
    subject: Option<string>,
    content: Option<string>)
  {
    /** Whether the arguments pass check `k`. */
    predicate Satisfies(k: SendCheck)
    {
      match k
      case Sender => Present(sender)
      case RecipientsObject => recipients.Some?
      case DirectRecipient => recipients.Some? && HasAddresses(recipients.value.to)
      case Subject => Present(subject)
      case Content => Present(content)
    }
  }

  /** The checks of `sendEmail`, in the order in which they are made. */
  datatype SendCheck = Sender | RecipientsObject | DirectRecipient | Subject | Content

  function SendCheckRank(k: SendCheck): nat
  {
    match k
    case Sender => 0
    case RecipientsObject => 1
    case DirectRecipient => 2
    case Subject => 3
    case Content => 4
  }

  function SendCheckMessage(k: SendCheck): string
  {
    match k
    case Sender => "Email sender is missing"
    case RecipientsObject => "Missing recipients"
    case DirectRecipient => "Direct recipient is missing(to)"
    case Subject => "Email subject is missing"
    case Content => "Email content is missing"
  }

  // ---------------------------------------------------------------------
  // sendEmail: the message object handed to the transport
  // ---------------------------------------------------------------------

  /** The message object `{from, to, cc?, bcc?, subject, html}`; `None`
      means the property is not set at all. */
  datatype Message = Message(
    from: string,
    to: string,
    cc: Option<string>,
    bcc: Option<string>,
    subject: string,
    html: string)
  {
    /** The object's own properties: `cc` and `bcc` only when they are set. */
    function OwnProperties(): map<string, string>
    {
      var base := map["from" := from, "to" := to, "subject" := subject, "html" := html];
      var withCc := if cc.Some? then base["cc" := cc.value] else base;
      if bcc.Some? then withCc["bcc" := bcc.value] else withCc
    }
  }

  /** The rule shared by `to`, `cc` and `bcc`: a missing or empty list gives
      no property, otherwise the addresses joined by ", ". */
  function FormatRecipients(list: Option<seq<string>>): Option<string>
  {
    if HasAddresses(list) then Some(RecipientList.Join(list.value)) else None
  }

  /** Validates the arguments of `sendEmail` in order, failing with the
      message of the first check that does not pass, and builds the message
      object otherwise. */
  function BuildMessage(args: SendArgs): (r: Result<Message, string>)
    ensures r.Ok? ==> args.sender == Some(r.value.from)
    ensures r.Ok? ==> args.subject == Some(r.value.subject)
    ensures r.Ok? ==> args.content == Some(r.value.html)
  {
    if !Present(args.sender) then Err(SendCheckMessage(Sender))
    else if args.recipients.None? then Err(SendCheckMessage(RecipientsObject))
    else if !HasAddresses(args.recipients.value.to) then Err(SendCheckMessage(DirectRecipient))
    else if !Present(args.subject) then Err(SendCheckMessage(Subject))
    else if !Present(args.content) then Err(SendCheckMessage(Content))
    else
      var rs := args.recipients.value;
      Ok(Message(args.sender.value, RecipientList.Join(rs.to.value), FormatRecipients(rs.cc),
                 FormatRecipients(rs.bcc), args.subject.value, args.content.value))
  }

  /** Building the message succeeds exactly when every check passes. */
  lemma BuildMessageSucceedsIffValid(args: SendArgs)
    ensures BuildMessage(args).Ok? <==> forall k :: args.Satisfies(k)
  {
    if !Present(args.sender) {
      assert !args.Satisfies(Sender);
    } else if args.recipients.None? {
      assert !args.Satisfies(RecipientsObject);
    } else if !HasAddresses(args.recipients.value.to) {
      assert !args.Satisfies(DirectRecipient);
    } else if !Present(args.subject) {
      assert !args.Satisfies(Subject);
    } else if !Present(args.content) {
      assert !args.Satisfies(Content);
    }
  }

  /** Each check has its own error message. */
  lemma SendCheckMessageInjective(k: SendCheck, l: SendCheck)
    ensures SendCheckMessage(k) == SendCheckMessage(l) <==> k == l
  {
  }

  /** `sendEmail` fails with the message of check `k` exactly when `k` does
      not pass and every check made before it does: the precedence is
      sender, recipients object, `to`, subject, content. */
  lemma BuildMessageReportsFirstFailure(args: SendArgs, k: SendCheck)
    ensures BuildMessage(args) == Err(SendCheckMessage(k)) <==>
            !args.Satisfies(k) && forall l :: SendCheckRank(l) < SendCheckRank(k) ==> args.Satisfies(l)
  {
    forall l ensures SendCheckMessage(l) == SendCheckMessage(k) ==> l == k {
      SendCheckMessageInjective(k, l);
    }
    match k
    case Sender =>
    case RecipientsObject =>
      assert SendCheckRank(Sender) < SendCheckRank(k);
    case DirectRecipient =>
      assert SendCheckRank(Sender) < SendCheckRank(k);
      assert SendCheckRank(RecipientsObject) < SendCheckRank(k);
    case Subject =>
      assert SendCheckRank(Sender) < SendCheckRank(k);
      assert SendCheckRank(RecipientsObject) < SendCheckRank(k);
      assert SendCheckRank(DirectRecipient) < SendCheckRank(k);
    case Content =>
      assert SendCheckRank(Sender) < SendCheckRank(k);
      assert SendCheckRank(RecipientsObject) < SendCheckRank(k);
      assert SendCheckRank(DirectRecipient) < SendCheckRank(k);
      assert SendCheckRank(Subject) < SendCheckRank(k);
  }

  /** Once a sender and a recipients object are given, a `to` that is
      absent, `null`, `undefined` or empty is rejected whatever the subject
      and content are. */
  lemma MissingToIsRejected(args: SendArgs)
    requires Present(args.sender) && args.recipients.Some?
    requires !HasAddresses(args.recipients.value.to)
    ensures BuildMessage(args) == Err("Direct recipient is missing(to)")
  {
  }

  /** For each list: a missing or empty list gives no property at all, one
      address gives exactly that address, and several give a string that
      splits back into the same addresses in the same order. */
  lemma FormatRecipientsJoinsOrOmits(list: Option<seq<string>>)
    ensures FormatRecipients(list).None? <==> list.None? || list.value == []
    ensures list.Some? && |list.value| == 1 ==> FormatRecipients(list) == Some(list.value[0])
    ensures list.Some? && |list.value| >= 2 && (forall i :: 0 <= i < |list.value| ==> RecipientList.NoComma(list.value[i]))
            ==> FormatRecipients(list).Some? && RecipientList.Split(FormatRecipients(list).value) == list.value
  {
    if list.Some? && |list.value| >= 2 && (forall i :: 0 <= i < |list.value| ==> RecipientList.NoComma(list.value[i])) {
      RecipientList.SplitJoin(list.value);
    }
  }

  /** In a built message, `to` is always set and `cc` and `bcc` are own
      properties exactly when their lists hold addresses, each formatted by
      the one shared rule. */
  lemma BuildMessageRecipientProperties(args: SendArgs)
    requires BuildMessage(args).Ok?
    ensures var props := BuildMessage(args).value.OwnProperties();
      && "to" in props && props["to"] == RecipientList.Join(args.recipients.value.to.value)
      && ("cc" in props <==> HasAddresses(args.recipients.value.cc))
      && ("cc" in props ==> props["cc"] == RecipientList.Join(args.recipients.value.cc.value))
      && ("bcc" in props <==> HasAddresses(args.recipients.value.bcc))
      && ("bcc" in props ==> props["bcc"] == RecipientList.Join(args.recipients.value.bcc.value))
      && props.Keys - {"cc", "bcc"} == {"from", "to", "subject", "html"}
  {
  }

  // ---------------------------------------------------------------------
  // sendEmail: delivery
  // ---------------------------------------------------------------------

  /** What the transport's completion callback receives: an error, or
      (when the error is missing) the id of the sent message. */
  datatype Reply<Id> = Reply(error: Option<string>, messageId: Id)

  const DeliveryErrorPrefix: string := "Can not send email. Stack trace: "

  /** Maps the transport's reply to the outcome of the send: a reported
      error `e` becomes the error "Can not send email. Stack trace: " + e,
      and a success carries the message id. */
  function DeliveryResult<Id>(reply: Reply<Id>): (r: Result<Id, string>)
    ensures r.Err? <==> Present(reply.error)
    ensures r.Err? ==> DeliveryErrorPrefix <= r.error && r.error[|DeliveryErrorPrefix|..] == reply.error.value
    ensures r.Ok? ==> r.value == reply.messageId
  {
    if Present(reply.error) then Err(DeliveryErrorPrefix + reply.error.value) else Ok(reply.messageId)
  }

  /** One call of `sendEmail`: the messages handed to the transport, in
      order, and the call's outcome. */
  datatype SendReport<Id> = SendReport(sent: seq<Message>, outcome: Result<Id, string>)

  /** `sendEmail` against a transport that answers each message with a
      reply: a request that fails validation sends nothing and fails with
      the validation message; a valid one is sent exactly once, and its
      outcome is the mapped reply. */
  function SendEmail<Id>(args: SendArgs, transport: Message -> Reply<Id>): (r: SendReport<Id>)
    ensures |r.sent| <= 1
    ensures |r.sent| == 1 <==> forall k :: args.Satisfies(k)
    ensures r.sent == [] ==> r.outcome.Err? && BuildMessage(args) == Err(r.outcome.error)
    ensures r.sent != [] ==> BuildMessage(args) == Ok(r.sent[0]) && r.outcome == DeliveryResult(transport(r.sent[0]))
  {
    BuildMessageSucceedsIffValid(args);
    match BuildMessage(args)
    case Err(e) => SendReport([], Err(e))
    case Ok(m) => SendReport([m], DeliveryResult(transport(m)))
  }
}
