/** The sign-in rule: only accounts whose e-mail address ends in '@sipgate.de'. */
module AuthConfig {
  import opened Common

  const AllowedDomain: string := "sipgate.de"

  /** The signIn callback: reject a missing or empty e-mail, accept exactly those ending
      in '@' followed by the domain, compared case-sensitively. */
  function SignIn(email: Option<string>): (allowed: bool)
    ensures allowed <==> email.Some? && EndsWith(email.value, "@sipgate.de")
  {
    if !Truthy(email) || !EndsWith(email.value, "@" + AllowedDomain) then false else true
  }

  /** Every address of the domain is accepted, whatever its local part. */
  lemma DomainAccepted(local: string)
    ensures SignIn(Some(local + "@sipgate.de"))
  {
    var e := local + "@sipgate.de";
    assert e[|e| - 11..] == "@sipgate.de";
  }

  /** A missing or empty address, another case, or a subdomain is rejected. */
  lemma OthersRejected()
    ensures !SignIn(None) && !SignIn(Some(""))
    ensures !SignIn(Some("a@SIPGATE.DE"))
    ensures !SignIn(Some("a@mail.sipgate.de"))
  {
    var upper := "a@SIPGATE.DE";
    assert upper[|upper| - 11..][1] == 'S';
    var sub := "a@mail.sipgate.de";
    assert sub[|sub| - 11..][0] == '.';
  }
}
