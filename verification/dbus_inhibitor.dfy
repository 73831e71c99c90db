/** The D-Bus backend (src/idle_inhibitor/dbus/mod.rs). It talks to the
    org.freedesktop.ScreenSaver service: `Inhibit(application, reason)` returns a cookie
    and `UnInhibit(cookie)` releases it. The remote replies are parameters (a cookie or
    an error for `Inhibit`, success or failure for `UnInhibit`), and every exchange with
    the service is recorded in order together with its reply. */
module DbusInhibitor {
  import opened Base

  type Cookie = u32

  /** The application name (the crate's package name) and the reason sent with `Inhibit`. */
  const ApplicationName: string := "wayland-pipewire-idle-inhibit"
  const Reason: string := "Media is being played"

  /** One remote call and its reply: `Inhibit` answered with a cookie or an error
      (`None`), `UnInhibit` answered with success or failure. */
  datatype Exchange =
    | InhibitCall(application: string, reason: string, reply: Option<Cookie>)
    | UnInhibitCall(cookie: Cookie, ok: bool)

  datatype DbusState = DbusState(cookie: Option<Cookie>)

  /** `inhibit`. */
  function Inhibit(s: DbusState, reply: Option<Cookie>): (r: (DbusState, Status, seq<Exchange>))
    ensures s.cookie.Some? ==> r == (s, Ok, [])
    ensures s.cookie.None? ==> r.2 == [InhibitCall(ApplicationName, Reason, reply)]
    ensures s.cookie.None? && reply.Some? ==> r.0.cookie == reply && r.1 == Ok
    ensures s.cookie.None? && reply.None? ==> r.0 == s && r.1 == Err
  {
    if s.cookie.None? then
      var call := InhibitCall(ApplicationName, Reason, reply);
      if reply.Some? then (DbusState(reply), Ok, [call]) else (s, Err, [call])
    else
      (s, Ok, [])
  }

  /** `uninhibit`. */
  function Uninhibit(s: DbusState, replyOk: bool): (r: (DbusState, Status, seq<Exchange>))
    ensures s.cookie.None? ==> r == (s, Ok, [])
    ensures s.cookie.Some? ==> r.2 == [UnInhibitCall(s.cookie.value, replyOk)]
    ensures s.cookie.Some? && replyOk ==> r.0.cookie.None? && r.1 == Ok
    ensures s.cookie.Some? && !replyOk ==> r.0 == s && r.1 == Err
  {
    if s.cookie.Some? then
      var call := UnInhibitCall(s.cookie.value, replyOk);
      if replyOk then (DbusState(None), Ok, [call]) else (s, Err, [call])
    else
      (s, Ok, [])
  }

  /** `Drop`: a held cookie is released, and forgotten whatever the reply. */
  function Drop(s: DbusState, replyOk: bool): (r: (DbusState, seq<Exchange>))
    ensures r.0.cookie.None?
    ensures s.cookie.None? ==> r.1 == []
    ensures s.cookie.Some? ==> r.1 == [UnInhibitCall(s.cookie.value, replyOk)]
  {
    if s.cookie.Some? then (DbusState(None), [UnInhibitCall(s.cookie.value, replyOk)]) else (s, [])
  }

  /** `new`: open the session bus and the proxy, then probe the service with `inhibit`
      followed by `uninhibit`. An early return drops the half-built value, so a failed
      `uninhibit` is followed by `Drop`'s own `UnInhibit` of the same cookie. */
  function New(connected: bool, inhibitReply: Option<Cookie>, uninhibitOk: bool, dropOk: bool)
    : (r: (Option<DbusState>, seq<Exchange>))
    ensures !connected ==> r == (None, [])
    ensures r.0.Some? <==> connected && inhibitReply.Some? && uninhibitOk
    ensures r.0.Some? ==> r.0.value.cookie.None?
    ensures connected && inhibitReply.None? ==> r.1 == [InhibitCall(ApplicationName, Reason, None)]
    ensures connected && inhibitReply.Some? && uninhibitOk ==>
      r.1 == [InhibitCall(ApplicationName, Reason, inhibitReply), UnInhibitCall(inhibitReply.value, true)]
    ensures connected && inhibitReply.Some? && !uninhibitOk ==>
      r.1 == [InhibitCall(ApplicationName, Reason, inhibitReply), UnInhibitCall(inhibitReply.value, false),
              UnInhibitCall(inhibitReply.value, dropOk)]
  {
    if !connected then (None, [])
    else
      var (s1, st1, c1) := Inhibit(DbusState(None), inhibitReply);
      if st1 == Err then
        var (_, c) := Drop(s1, dropOk);
        (None, c1 + c)
      else
        var (s2, st2, c2) := Uninhibit(s1, uninhibitOk);
        if st2 == Err then
          var (_, c) := Drop(s2, dropOk);
          (None, c1 + c2 + c)
        else
          (Some(s2), c1 + c2)
  }

  /** The backend contract (src/idle_inhibitor/mod.rs:23-28): no remote call and no change
      when the backend is already in the requested state; so a call repeated after a
      successful one does nothing. */
  lemma MeetsContract(s: DbusState, reply: Option<Cookie>, replyOk: bool)
    ensures s.cookie.Some? ==> Inhibit(s, reply) == (s, Ok, [])
    ensures s.cookie.None? ==> Uninhibit(s, replyOk) == (s, Ok, [])
    ensures Inhibit(s, reply).1 == Ok ==> Inhibit(Inhibit(s, reply).0, reply) == (Inhibit(s, reply).0, Ok, [])
    ensures Uninhibit(s, replyOk).1 == Ok ==> Uninhibit(Uninhibit(s, replyOk).0, replyOk) == (Uninhibit(s, replyOk).0, Ok, [])
  {
  }

  /** A request from the daemon, `inhibit` (true) or `uninhibit` (false), with the reply
      the service would give to the remote call it may cause. */
  datatype Request = Request(inhibit: bool, reply: Option<Cookie>, replyOk: bool)

  /** A live backend serving a sequence of requests: the final state and the exchanges. */
  function Serve(s: DbusState, requests: seq<Request>): (r: (DbusState, seq<Exchange>))
    decreases |requests|
  {
    if |requests| == 0 then (s, [])
    else
      var q := requests[0];
      var (s1, _, c1) := if q.inhibit then Inhibit(s, q.reply) else Uninhibit(s, q.replyOk);
      var (s2, c2) := Serve(s1, requests[1..]);
      (s2, c1 + c2)
  }

  /** The exchanges respect the cookie protocol starting with `held` outstanding and end
      with `final` outstanding: `Inhibit` only while nothing is outstanding, `UnInhibit`
      only with the outstanding cookie, which a successful release clears. */
  predicate Bracketed(held: Option<Cookie>, calls: seq<Exchange>, final: Option<Cookie>)
    decreases |calls|
  {
    if |calls| == 0 then held == final
    else match calls[0]
      case InhibitCall(_, _, reply) => held.None? && Bracketed(reply, calls[1..], final)
      case UnInhibitCall(c, ok) => held == Some(c) && Bracketed(if ok then None else held, calls[1..], final)
  }

  lemma {:induction false} BracketedAppend(held: Option<Cookie>, mid: Option<Cookie>, a: seq<Exchange>,
                                           b: seq<Exchange>, final: Option<Cookie>)
    requires Bracketed(held, a, mid) && Bracketed(mid, b, final)
    ensures Bracketed(held, a + b, final)
    decreases |a|
  {
    if |a| == 0 {
      assert a + b == b;
    } else {
      assert (a + b)[0] == a[0] && (a + b)[1..] == a[1..] + b;
      match a[0]
      case InhibitCall(_, _, reply) => BracketedAppend(reply, mid, a[1..], b, final);
      case UnInhibitCall(c, ok) => BracketedAppend(if ok then None else held, mid, a[1..], b, final);
    }
  }

  /** At most one cookie is outstanding at any time: over any sequence of requests the
      backend calls `Inhibit` only when it holds no cookie, releases exactly the cookie it
      holds, and ends holding exactly the cookie the exchanges leave outstanding. */
  lemma {:induction false} ServeIsBracketed(s: DbusState, requests: seq<Request>)
    ensures Bracketed(s.cookie, Serve(s, requests).1, Serve(s, requests).0.cookie)
    decreases |requests|
  {
    if |requests| > 0 {
      var q := requests[0];
      var (s1, _, c1) := if q.inhibit then Inhibit(s, q.reply) else Uninhibit(s, q.replyOk);
      ServeIsBracketed(s1, requests[1..]);
      assert Bracketed(s.cookie, c1, s1.cookie);
      BracketedAppend(s.cookie, s1.cookie, c1, Serve(s1, requests[1..]).1, Serve(s, requests).0.cookie);
    }
  }
}
