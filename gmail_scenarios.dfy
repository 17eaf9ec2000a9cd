/** The scenarios of the Gmail client's test suite, stated on the model with
    the suite's own values. */
module GmailScenarios {
  import opened Wrappers
  import opened Gmail
  import RecipientList

  const UserName: string := "userName"
  const Id: string := "clientId"
  const Secret: string := "clientSecret"
  const Access: string := "accessToken"
  const Refresh: string := "refreshToken"

  const Jane: string := "jane@gmail.com"
  const John: string := "john@gmail.com"
  const TheSubject: string := "Merged pull requests in last 24h"
  const TheContent: string := "<h1>Foobar</h1>"

  /** A valid request to `[Jane]` with the given `cc` and `bcc` lists. */
  function Request(to: seq<string>, cc: Option<seq<string>>, bcc: Option<seq<string>>): SendArgs
  {
    SendArgs(Some(Jane), Some(Recipients(Some(to), cc, bcc)), Some(TheSubject), Some(TheContent))
  }

  /** The two test addresses joined. */
  lemma JaneAndJohnJoined()
    ensures RecipientList.Join([Jane, John]) == "jane@gmail.com, john@gmail.com"
  {
    assert [Jane, John][1..] == [John];
  }

  /** A transport that accepts every message and answers with `id`. */
  function Accepting(id: int): Message -> Reply<int>
  {
    m => Reply(None, id)
  }

  /** Leaving off trailing constructor arguments fails on the first one left off. */
  lemma ConstructorRejectsMissingCredentials()
    ensures MakeClient(CredentialArgs(None, None, None, None, None)) == Err("OAuth2 user is missing")
    ensures MakeClient(CredentialArgs(Some(UserName), None, None, None, None)) == Err("OAuth2 client id is missing")
    ensures MakeClient(CredentialArgs(Some(UserName), Some(Id), None, None, None)) == Err("OAuth2 client secret is missing")
    ensures MakeClient(CredentialArgs(Some(UserName), Some(Id), Some(Secret), None, None)) == Err("OAuth2 access token is missing.")
    ensures MakeClient(CredentialArgs(Some(UserName), Some(Id), Some(Secret), Some(Access), None))
            == Err("OAuth2 refresh token is missing. Please obtain refresh token and put in your configuration")
  {
  }

  /** With all five credentials the client holds exactly those five values. */
  lemma ConstructorKeepsCredentials()
    ensures var r := MakeClient(CredentialArgs(Some(UserName), Some(Id), Some(Secret), Some(Access), Some(Refresh)));
      r.Ok? && r.value.OwnProperties() == map["_user" := "userName", "_id" := "clientId", "_secret" := "clientSecret",
                                               "_accessToken" := "accessToken", "_refreshToken" := "refreshToken"]
  {
  }

  /** The validation errors of `sendEmail`, each with nothing sent. */
  lemma SendEmailRejectsMissingArguments(transport: Message -> Reply<int>)
    ensures SendEmail(SendArgs(None, None, None, None), transport) == SendReport([], Err("Email sender is missing"))
    ensures SendEmail(SendArgs(Some(Jane), None, None, None), transport) == SendReport([], Err("Missing recipients"))
    ensures SendEmail(SendArgs(Some(Jane), Some(Recipients(None, None, None)), None, None), transport)
            == SendReport([], Err("Direct recipient is missing(to)"))
    ensures SendEmail(SendArgs(Some(Jane), Some(Recipients(Some([]), None, None)), None, None), transport)
            == SendReport([], Err("Direct recipient is missing(to)"))
    ensures SendEmail(SendArgs(Some(Jane), Some(Recipients(Some([Jane]), None, None)), None, None), transport)
            == SendReport([], Err("Email subject is missing"))
    ensures SendEmail(SendArgs(Some(Jane), Some(Recipients(Some([Jane]), None, None)), Some(TheSubject), None), transport)
            == SendReport([], Err("Email content is missing"))
  {
  }

  /** One `to` address is sent as it is; two are joined by ", ". */
  lemma ToListFormatting()
    ensures var r := SendEmail(Request([Jane], None, None), Accepting(0));
      |r.sent| == 1 && r.sent[0].to == "jane@gmail.com"
    ensures var r := SendEmail(Request([Jane, John], None, None), Accepting(0));
      |r.sent| == 1 && r.sent[0].to == "jane@gmail.com, john@gmail.com"
  {
  }

  /** A `cc` that is not passed, `null`, `undefined` or empty is not a
      property of the sent message; one address is sent as it is; two are
      joined by ", ". */
  lemma CcListFormatting()
    ensures var r := SendEmail(Request([Jane], None, None), Accepting(0));
      |r.sent| == 1 && "cc" !in r.sent[0].OwnProperties()
    ensures var r := SendEmail(Request([Jane], Some([]), None), Accepting(0));
      |r.sent| == 1 && "cc" !in r.sent[0].OwnProperties()
    ensures var r := SendEmail(Request([Jane], Some([Jane]), None), Accepting(0));
      |r.sent| == 1 && r.sent[0].cc == Some("jane@gmail.com")
    ensures var r := SendEmail(Request([Jane], Some([Jane, John]), None), Accepting(0));
      |r.sent| == 1 && r.sent[0].cc == Some("jane@gmail.com, john@gmail.com")
  {
    JaneAndJohnJoined();
  }

  /** The same rule for `bcc`. */
  lemma BccListFormatting()
    ensures var r := SendEmail(Request([Jane], None, None), Accepting(0));
      |r.sent| == 1 && "bcc" !in r.sent[0].OwnProperties()
    ensures var r := SendEmail(Request([Jane], None, Some([])), Accepting(0));
      |r.sent| == 1 && "bcc" !in r.sent[0].OwnProperties()
    ensures var r := SendEmail(Request([Jane], None, Some([Jane])), Accepting(0));
      |r.sent| == 1 && r.sent[0].bcc == Some("jane@gmail.com")
    ensures var r := SendEmail(Request([Jane], None, Some([Jane, John])), Accepting(0));
      |r.sent| == 1 && r.sent[0].bcc == Some("jane@gmail.com, john@gmail.com")
  {
    JaneAndJohnJoined();
  }

  /** A transport error surfaces with its text; a success carries the id. */
  lemma DeliveryOutcomes()
    ensures SendEmail(Request([Jane], None, None), m => Reply(Some("nodemailer error"), 0)).outcome
            == Err("Can not send email. Stack trace: nodemailer error")
    ensures SendEmail(Request([Jane], None, None), Accepting(666)).outcome == Ok(666)
  {
    assert DeliveryErrorPrefix + "nodemailer error" == "Can not send email. Stack trace: nodemailer error";
  }
}
