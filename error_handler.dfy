/** `ErrorHandler.getErrorMessage` of js/script.js and the choice of account to show. */
module ErrorHandler {
  import opened Wrappers
  import opened Text
  import opened GitHubService

  const OfflineMessage: string := "Network connection lost. Please check your internet connection."
  const NotFoundMessage: string := "GitHub user not found. Please check the username."
  const GenericMessage: string := "Failed to load data from GitHub. Please try again later."

  /** Being offline wins; then a `404` anywhere in the error's message; then the generic text. */
  function GetErrorMessage(online: bool, message: string): (m: string)
    ensures m in {OfflineMessage, NotFoundMessage, GenericMessage}
    ensures m == OfflineMessage <==> !online
    ensures m == NotFoundMessage <==> online && Contains(message, "404")
  {
    if !online then OfflineMessage
    else if Contains(message, "404") then NotFoundMessage
    else GenericMessage
  }

  /** The text before the status in `HTTP error! <status>` has no digit `4`. */
  lemma HttpErrorMentions404(status: nat)
    requires 100 <= status <= 999
    ensures Contains(HttpError(status).Message(), "404") <==> status == 404
  {
    var prefix := "HTTP error! ";
    var digits := Decimal(status);
    var m := prefix + digits;
    assert HttpError(status).Message() == m;
    DecimalThreeDigits(status);
    DecimalIs404(status);
    assert |m| == 15;
    if status == 404 {
      ContainsAt(m, "404", 12);
    } else {
      forall i | 0 <= i <= |m| ensures !StartsWith(m[i..], "404") {
        if i < 12 {
          assert m[i] == prefix[i];
          assert '4' !in prefix;
          assert m[i..][0] != '4';
        } else if i == 12 {
          assert m[i..] == digits;
        }
      }
    }
  }

  /**
   * An HTTP failure of the account or repository requests reads "user not
   * found" exactly for status 404 when online, whatever the status otherwise.
   */
  lemma HttpStatusMessage(status: nat, online: bool)
    requires 100 <= status <= 999
    ensures GetErrorMessage(online, HttpError(status).Message()) ==
      if !online then OfflineMessage else if status == 404 then NotFoundMessage else GenericMessage
  {
    HttpErrorMentions404(status);
  }

  const DefaultUser: string := "anxety-solo"

  /** `urlParams.get('user') || urlParams.get('u') || CONFIG.githubUsername`. */
  function ChooseUser(user: Option<string>, u: Option<string>): (name: string)
    ensures user.Some? && user.value != "" ==> name == user.value
    ensures (user.None? || user.value == "") && u.Some? && u.value != "" ==> name == u.value
    ensures name == DefaultUser <==>
      (user.Some? && user.value == DefaultUser) ||
      ((user.None? || user.value == "") && (u.None? || u.value == "" || u.value == DefaultUser))
  {
    if user.Some? && user.value != "" then user.value
    else if u.Some? && u.value != "" then u.value
    else DefaultUser
  }
}
