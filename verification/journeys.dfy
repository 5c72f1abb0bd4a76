/**
 * Journeys across the two halves of the site: what a page shows when the
 * reply it receives is the one the Django view computes. The transport
 * is the axios convention: a 2xx status resolves with the body, anything
 * else rejects with the body's `detail`.
 */
module Journeys {
  import opened Wrappers
  import opened Text
  import opened Http
  import Accounts
  import ResetPasswordPage
  import ForgotPasswordPage

  /** How the reset page receives `validate_reset_token`'s answer. */
  function ValidationReply(v: Accounts.Validation): (r: Reply<ResetPasswordPage.ValidationBody>)
    ensures r.Ok? <==> 200 <= v.status < 300
    ensures r.Ok? ==> r.data.valid == v.valid
  {
    if 200 <= v.status < 300 then Ok(ResetPasswordPage.ValidationBody(v.valid, Some(v.detail)))
    else Fail(ErrorBody(Some(v.status), Some(v.detail), None))
  }

  /** How a page receives a JSON response whose payload is `detail`. */
  function DetailReply(resp: Accounts.Response): (r: Reply<Option<string>>)
    ensures r.Ok? <==> resp.Json? && 200 <= resp.status < 300
    ensures r.Ok? ==> r.data == Some(resp.detail)
  {
    match resp
    case Json(status, detail) =>
      if 200 <= status < 300 then Ok(Some(detail)) else Fail(ErrorBody(Some(status), Some(detail), None))
    case ServerError => Fail(ErrorBody(Some(500), None, None))
  }

  /** The reset form opens exactly for the links the backend calls valid. */
  lemma ResetFormOpensIffLinkValid(users: seq<Accounts.Account>, link: ResetPasswordPage.Link,
                                   decode: Accounts.UidDecoder, check: Accounts.TokenCheck)
    ensures ResetPasswordPage.CheckLink(link, ValidationReply(Accounts.ValidateToken(users, link.uid, link.token, decode, check))).tokenValid
      <==> Accounts.ValidateToken(users, link.uid, link.token, decode, check).valid
  {
  }

  /**
   * The page as written counts UTF-16 units and the view counts
   * characters: on an open form, a confirmed password of fewer than eight
   * characters that astral characters stretch to eight units is sent, and
   * the view refuses it as too short.
   */
  lemma AstralPasswordSentButRefused(users: seq<Accounts.Account>, link: ResetPasswordPage.Link, password: string,
                                     reply: Reply<Option<string>>, decode: Accounts.UidDecoder, check: Accounts.TokenCheck)
    requires ResetPasswordPage.CheckLink(link, ValidationReply(Accounts.ValidateToken(users, link.uid, link.token, decode, check))).tokenValid
    requires |password| < ResetPasswordPage.MinLength <= Utf16Length(password)
    ensures var body := ResetPasswordPage.Submit(link, password, password, reply).request;
      && body.Some?
      && Accounts.ResetConfirm(users, body.value.uid, body.value.token, Some(body.value.password), decode, check).response
         == Accounts.Json(400, "Password must be at least 8 characters long")
  {
  }

  /** Four emoji: eight UTF-16 units, four characters. */
  lemma FourEmojiRefused(users: seq<Accounts.Account>, link: ResetPasswordPage.Link,
                         decode: Accounts.UidDecoder, check: Accounts.TokenCheck)
    requires ResetPasswordPage.CheckLink(link, ValidationReply(Accounts.ValidateToken(users, link.uid, link.token, decode, check))).tokenValid
    ensures var p := "\U{1F600}\U{1F600}\U{1F600}\U{1F600}";
      && ResetPasswordPage.Submit(link, p, p, Ok(None)).request.Some?
      && Accounts.ResetConfirm(users, link.uid, link.token, Some(p), decode, check).response
         == Accounts.Json(400, "Password must be at least 8 characters long")
  {
    var p := "\U{1F600}\U{1F600}\U{1F600}\U{1F600}";
    assert forall k :: 0 <= k < |p| ==> IsAstral(p[k]);
    AstralPasswordSentButRefused(users, link, p, Ok(None), decode, check);
  }

  /**
   * With the length counted in characters, the open form lets a password
   * through exactly when the confirm view replaces it, and the page as
   * written sends every such password.
   */
  lemma OpenFormResets(users: seq<Accounts.Account>, link: ResetPasswordPage.Link, password: string,
                       decode: Accounts.UidDecoder, check: Accounts.TokenCheck)
    requires ResetPasswordPage.CheckLink(link, ValidationReply(Accounts.ValidateToken(users, link.uid, link.token, decode, check))).tokenValid
    ensures ResetPasswordPage.CorrectedRejection(password, password).None? <==>
      Accounts.ResetConfirm(users, link.uid, link.token, Some(password), decode, check).newPassword.Some?
    ensures ResetPasswordPage.CorrectedRejection(password, password).None? ==>
      ResetPasswordPage.Submit(link, password, password, Ok(None)).request ==
        Some(ResetPasswordPage.ConfirmBody(link.uid, link.token, password))
  {
    ResetFormOpensIffLinkValid(users, link, decode, check);
    if |password| >= Accounts.PasswordMin {
      Accounts.ValidLinkConfirms(users, link.uid.value, link.token.value, password, decode, check);
    }
  }

  /** An address the page accepts is never blank to the backend. */
  lemma AcceptedEmailNotBlank(email: string)
    requires ForgotPasswordPage.EmailCheck(email)
    ensures Accounts.NormalizeEmail(email) != ""
  {
    var i := ForgotPasswordPage.IndexOf(email, '@').value;
    BlankIffAllSpace(email);
    assert !IsPySpace(email[i]);
  }

  /**
   * Whatever the store holds and whether mailing works, a visitor whose
   * address the page accepts is told the generic text and sees the
   * "email sent" state: the page never says whether the account exists.
   */
  lemma ForgotPageHidesAccounts(users: seq<Accounts.Account>, email: string, mailSent: bool)
    requires ForgotPasswordPage.EmailCheck(email)
    ensures var r := ForgotPasswordPage.Submit(email, DetailReply(Accounts.ResetRequest(users, email, mailSent)));
      r.emailSent && r.notice.Toast? && r.notice.description == ForgotPasswordPage.GenericText
  {
    AcceptedEmailNotBlank(email);
  }

  /** A registered and an unknown address produce the same page when mail goes out. */
  lemma ForgotPageSameForKnownAndUnknown(users: seq<Accounts.Account>, unknown: string, known: string)
    requires ForgotPasswordPage.EmailCheck(unknown) && ForgotPasswordPage.EmailCheck(known)
    requires Accounts.ByEmail(users, Accounts.NormalizeEmail(unknown)).NoMatch?
    requires Accounts.ByEmail(users, Accounts.NormalizeEmail(known)).One?
    ensures ForgotPasswordPage.Submit(unknown, DetailReply(Accounts.ResetRequest(users, unknown, true)))
         == ForgotPasswordPage.Submit(known, DetailReply(Accounts.ResetRequest(users, known, true)))
  {
    AcceptedEmailNotBlank(unknown);
    AcceptedEmailNotBlank(known);
    Accounts.ResetRequestHidesAccounts(users, unknown, known);
  }
}
