/** The email-notification router: the per-user rate limit on test emails,
    kept in a process-wide map from user id to the time of that user's last
    successful test email, and the validation of preference updates. The
    clock and the outcome of the foreign mail delivery are parameters. */
module EmailNotifications {
  import opened Common

  /** The shortest gap between two test emails of one user. */
  const RateWindow: int := 5 * MicrosPerMinute

  /** The outcome of send_test_email_now. */
  datatype SendOutcome =
    | Sent
    | RateLimited(waitMinutes: int)   // 429, with the minutes the user is told to wait
    | SendFailed                      // 500: delivery reported failure or raised

  /** The reported wait for an elapsed time inside the window: five less
      the whole minutes elapsed, the fraction cut toward zero. */
  function WaitMinutes(elapsed: int): (w: int)
    ensures 0 <= elapsed < RateWindow ==> 1 <= w <= 5
    ensures elapsed < 0 ==> w >= 5
  {
    5 - TruncDiv(elapsed, MicrosPerMinute)
  }

  /** The wait the limiter imposes on user at time now, or None when a
      test email may go out. */
  function Blocked(lastSent: map<int, Timestamp>, user: int, now: Timestamp): (r: Option<int>)
    ensures r.Some? <==> user in lastSent && now - lastSent[user] < RateWindow
  {
    if user in lastSent && now - lastSent[user] < RateWindow then Some(WaitMinutes(now - lastSent[user]))
    else None
  }

  /** One user's sends never block another: recording a send for `other`
      leaves every other user's wait as it was. */
  lemma PerUser(lastSent: map<int, Timestamp>, user: int, other: int, t: Timestamp, now: Timestamp)
    requires other != user
    ensures Blocked(lastSent[other := t], user, now) == Blocked(lastSent, user, now)
  {
  }

  /** After a successful send at time t, the same user is blocked for
      exactly the five minutes that follow, and told to wait 5 minutes at
      first and 1 minute in the last minute. */
  lemma BlockedFiveMinutes(lastSent: map<int, Timestamp>, user: int, t: Timestamp, now: Timestamp)
    requires now >= t
    ensures Blocked(lastSent[user := t], user, now).Some? <==> now < t + RateWindow
    ensures now < t + MicrosPerMinute ==> Blocked(lastSent[user := t], user, now) == Some(5)
    ensures t + 4 * MicrosPerMinute <= now < t + RateWindow ==> Blocked(lastSent[user := t], user, now) == Some(1)
  {
    var e := now - t;
    if e < MicrosPerMinute {
      assert TruncDiv(e, MicrosPerMinute) == 0;
    }
    if 4 * MicrosPerMinute <= e < RateWindow {
      assert TruncDiv(e, MicrosPerMinute) == 4;
    }
  }

  /** The in-memory rate limiter of send_test_email_now. */
  class TestEmailLimiter {
    var lastSent: map<int, Timestamp>

    constructor ()
      ensures lastSent == map[]
    {
      lastSent := map[];
    }

    /** send_test_email_now for user at time now; `delivered` is what the
        mail service reports. A user inside the window gets 429 with the
        wait; otherwise the mail is sent, and only a successful send is
        recorded. */
    method SendTest(user: int, now: Timestamp, delivered: bool) returns (r: SendOutcome)
      modifies this
      ensures Blocked(old(lastSent), user, now).Some? ==>
        r == RateLimited(Blocked(old(lastSent), user, now).value) && lastSent == old(lastSent)
      ensures Blocked(old(lastSent), user, now).None? && delivered ==>
        r == Sent && lastSent == old(lastSent)[user := now]
      ensures Blocked(old(lastSent), user, now).None? && !delivered ==>
        r == SendFailed && lastSent == old(lastSent)
    {
      if user in lastSent {
        var elapsed := now - lastSent[user];
        if elapsed < RateWindow {
          return RateLimited(5 - TruncDiv(elapsed, MicrosPerMinute));
        }
      }
      if !delivered {
        return SendFailed;
      }
      lastSent := lastSent[user := now];
      return Sent;
    }
  }

  // ---------------------------------------------------------------------
  // Preferences

  /** The email columns of a user_preferences row. */
  datatype EmailPrefs = EmailPrefs(
    enableWeeklyEmail: bool,
    emailAddress: Option<string>,
    lastEmailSentAt: Option<string>,
    updatedAt: string)

  datatype PrefsView = PrefsView(enableWeeklyEmail: bool, emailAddress: Option<string>, lastEmailSentAt: Option<string>)

  /** An update request: None marks a field that was not supplied. */
  datatype PrefsUpdate = PrefsUpdate(enableWeeklyEmail: Option<bool>, emailAddress: Option<string>)

  function View(p: EmailPrefs): PrefsView
  {
    PrefsView(p.enableWeeklyEmail, p.emailAddress, p.lastEmailSentAt)
  }

  /** get_email_preferences: the stored values, or disabled with no address
      and no last-sent time when the user has no row. */
  function GetPreferences(table: map<int, EmailPrefs>, user: int): (v: PrefsView)
    ensures user !in table ==> v == PrefsView(false, None, None)
    ensures user in table ==> v.enableWeeklyEmail == table[user].enableWeeklyEmail && v.emailAddress == table[user].emailAddress
  {
    if user in table then View(table[user]) else PrefsView(false, None, None)
  }

  /** The stored address for a supplied one: the empty string clears it. */
  function StoredAddress(a: string): (r: Option<string>)
    ensures r.None? <==> a == ""
  {
    if a == "" then None else Some(a)
  }

  /** update_email_preferences: 400 when neither field is supplied; the
      supplied fields are written (an empty address as None) with
      updated_at now. The UPDATE touches no row when the user has none,
      and reading the missing row back then fails with 500. */
  function UpdatePreferences(table: map<int, EmailPrefs>, user: int, upd: PrefsUpdate, now: string)
    : (r: Result<(map<int, EmailPrefs>, PrefsView)>)
    ensures r.Failure? <==> (upd.enableWeeklyEmail.None? && upd.emailAddress.None?) || user !in table
    ensures r.Failure? ==> r.status == (if upd.enableWeeklyEmail.None? && upd.emailAddress.None? then 400 else 500)
    ensures r.Ok? ==>
      && r.value.0.Keys == table.Keys
      && (forall u :: u in table && u != user ==> r.value.0[u] == table[u])
      && r.value.1 == GetPreferences(r.value.0, user)
  {
    if upd.enableWeeklyEmail.None? && upd.emailAddress.None? then Failure(400)
    else if user !in table then Failure(500)
    else
      var p := table[user];
      var p' := p.(
        enableWeeklyEmail := if upd.enableWeeklyEmail.Some? then upd.enableWeeklyEmail.value else p.enableWeeklyEmail,
        emailAddress := if upd.emailAddress.Some? then StoredAddress(upd.emailAddress.value) else p.emailAddress,
        updatedAt := now);
      var t := table[user := p'];
      Ok((t, View(p')))
  }

  /** A successful update shows each supplied field as written (an empty
      address as none) and each other field as it was; the last-sent time
      is never changed. */
  lemma UpdatedPreferences(table: map<int, EmailPrefs>, user: int, upd: PrefsUpdate, now: string,
                           t: map<int, EmailPrefs>, v: PrefsView)
    requires UpdatePreferences(table, user, upd, now) == Ok((t, v))
    ensures v.enableWeeklyEmail == (if upd.enableWeeklyEmail.Some? then upd.enableWeeklyEmail.value else table[user].enableWeeklyEmail)
    ensures upd.emailAddress == Some("") ==> v.emailAddress.None?
    ensures upd.emailAddress.Some? && upd.emailAddress.value != "" ==> v.emailAddress == upd.emailAddress
    ensures upd.emailAddress.None? ==> v.emailAddress == table[user].emailAddress
    ensures v.lastEmailSentAt == table[user].lastEmailSentAt && t[user].updatedAt == now
  {
  }
}
