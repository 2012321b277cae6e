/** `verifyAdminPassword`: the admin password check. The configured
    password comes from the environment; when it is unset or empty the
    password is `admin`. */
module AdminAuth {
  import opened Records

  const DefaultPassword := "admin"

  /** The password in force. */
  function AdminPassword(configured: Option<string>): (p: string)
    ensures Present(configured) ==> p == configured.value
    ensures !Present(configured) ==> p == DefaultPassword
    ensures p != ""
  {
    if Present(configured) then configured.value else DefaultPassword
  }

  /** Exact comparison with the password in force: the configured one when
      it is set and non-empty, `admin` otherwise. */
  function VerifyAdminPassword(password: string, configured: Option<string>): (ok: bool)
    ensures Present(configured) ==> (ok <==> password == configured.value)
    ensures !Present(configured) ==> (ok <==> password == DefaultPassword)
  {
    password == AdminPassword(configured)
  }

  /** Exactly one password is accepted, and it is never the empty one. */
  lemma OnePasswordAccepted(configured: Option<string>, a: string, b: string)
    requires VerifyAdminPassword(a, configured) && VerifyAdminPassword(b, configured)
    ensures a == b && a != ""
  {
  }

  /** An empty setting behaves as no setting: `admin` opens the dashboard. */
  lemma EmptySettingFallsBack(password: string)
    ensures VerifyAdminPassword(password, Some("")) == VerifyAdminPassword(password, None)
    ensures VerifyAdminPassword(DefaultPassword, None)
  {
  }
}
