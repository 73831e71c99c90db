/** The daemon's control interface (src/dbus_server.rs): a manual-inhibit flag users set
    or toggle over D-Bus, and the effective inhibition state it reports. Every change of
    the manual flag is forwarded to the main loop as a `ManualInhibit(v)` message; the
    queue is modelled as the sequence of messages sent so far. */
module DbusServer {

  datatype Msg = ManualInhibit(value: bool)

  datatype Server = Server(manual: bool, effective: bool, sent: seq<Msg>)

  /** `DBusServer::new`. */
  function New(): (s: Server)
    ensures !s.manual && !s.effective && s.sent == []
  {
    Server(false, false, [])
  }

  /** `set_effective_inhibit`. */
  function SetEffectiveInhibit(s: Server, value: bool): (r: Server)
    ensures r.effective == value
    ensures r.manual == s.manual && r.sent == s.sent
  {
    s.(effective := value)
  }

  /** `get_effective_inhibit`, and the `IsIdleInhibited` property. */
  function GetEffectiveInhibit(s: Server): bool
  {
    s.effective
  }

  /** `get_manual_inhibit`, and the `ManualInhibit` property getter. */
  function GetManualInhibit(s: Server): bool
  {
    s.manual
  }

  /** The `ManualInhibit` property setter. */
  function SetManualInhibit(s: Server, value: bool): (r: Server)
    ensures r.manual == value && r.effective == s.effective
    ensures s.manual == value ==> r == s
    ensures s.manual != value ==> r.sent == s.sent + [ManualInhibit(value)]
  {
    if s.manual != value then s.(manual := value, sent := s.sent + [ManualInhibit(value)]) else s
  }

  /** `ToggleManualInhibit`. */
  function ToggleManualInhibit(s: Server): (r: Server)
    ensures r.manual != s.manual && r.effective == s.effective
    ensures r.sent == s.sent + [ManualInhibit(r.manual)]
  {
    var v := !s.manual;
    s.(manual := v, sent := s.sent + [ManualInhibit(v)])
  }

  /** Toggling twice restores the flag and sends both values in turn. */
  lemma ToggleTwice(s: Server)
    ensures ToggleManualInhibit(ToggleManualInhibit(s)).manual == s.manual
    ensures ToggleManualInhibit(ToggleManualInhibit(s)).sent ==
      s.sent + [ManualInhibit(!s.manual), ManualInhibit(s.manual)]
  {
  }

  /** A toggle is a set to the opposite value, which always differs and so always sends. */
  lemma ToggleIsSetOpposite(s: Server)
    ensures ToggleManualInhibit(s) == SetManualInhibit(s, !s.manual)
  {
  }

  /** The getters read the two flags, and neither setter touches the other flag. */
  lemma GettersReadFlags(s: Server, v: bool)
    ensures GetManualInhibit(SetManualInhibit(s, v)) == v
    ensures GetEffectiveInhibit(SetManualInhibit(s, v)) == GetEffectiveInhibit(s)
    ensures GetManualInhibit(SetEffectiveInhibit(s, v)) == GetManualInhibit(s)
    ensures GetEffectiveInhibit(SetEffectiveInhibit(s, v)) == v
  {
  }

  datatype Op = SetManual(value: bool) | Toggle | SetEffective(value: bool)

  function Apply(s: Server, op: Op): Server
  {
    match op
    case SetManual(v) => SetManualInhibit(s, v)
    case Toggle => ToggleManualInhibit(s)
    case SetEffective(v) => SetEffectiveInhibit(s, v)
  }

  function ApplyAll(s: Server, ops: seq<Op>): Server
    decreases |ops|
  {
    if |ops| == 0 then s else ApplyAll(Apply(s, ops[0]), ops[1..])
  }

  /** The main loop's view stays in step with the flag: each message carries a value that
      differs from the one before, and the last message sent is the current flag (no
      message at all while the flag is still its initial `false`). */
  predicate InStep(s: Server)
  {
    (if |s.sent| == 0 then !s.manual else s.sent[|s.sent| - 1].value == s.manual)
    && (|s.sent| > 0 ==> s.sent[0].value)
    && forall i :: 0 < i < |s.sent| ==> s.sent[i].value != s.sent[i - 1].value
  }

  lemma {:induction false} ApplyAllKeepsInStep(s: Server, ops: seq<Op>)
    requires InStep(s)
    ensures InStep(ApplyAll(s, ops))
    ensures s.sent <= ApplyAll(s, ops).sent
    decreases |ops|
  {
    if |ops| > 0 {
      var s1 := Apply(s, ops[0]);
      assert InStep(s1) && s.sent <= s1.sent;
      ApplyAllKeepsInStep(s1, ops[1..]);
    }
  }

  lemma NewIsInStep()
    ensures InStep(New())
  {
  }
}
