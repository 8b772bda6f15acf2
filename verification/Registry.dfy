/** The registries of the publisher, subscriber and service actors as one state machine: user handles
    share a guard, the actor's map holds it weakly, and the last handle to go makes the guard post a
    `Drop` message unless it was disarmed. The master is a map with atomic calls.

    A handler is one step although it awaits: all it decides rests on one `upgrade`, and what handles do
    meanwhile only changes counts that fall and the far end of the mailbox. */
module Registry {
  import Handshake

  /** Who keeps the registry; the handlers differ in what they do about stale entries and disarming. */
  datatype Kind = PublisherKind | SubscriberKind | ServerKind | ClientKind

  /** What an endpoint carries; services have no definition. */
  datatype Spec = Spec(md5sum: string, msgType: string, definition: string)

  datatype Entry = Entry(guard: nat, spec: Spec)

  /** A guard with no handles is being dropped; it has finished once its destructor has run. */
  datatype Guard = Guard(name: string, armed: bool, handles: nat, finished: bool)

  /** `from` says which guard posted a drop; no handler can see it. */
  datatype Msg = RegisterMsg(name: string, spec: Spec) | UnregisterMsg(name: string) | DropMsg(name: string, from: nat)

  datatype State = State(
    kind: Kind,
    registry: map<string, Entry>,
    guards: seq<Guard>,
    mailbox: seq<Msg>,
    master: map<string, nat>,   // what this node has registered, and for which guard's entry
    stopped: bool
  )

  /** Which of a handler's calls succeed: setting up the endpoint, the master call that cleans up, and
      the master call that registers. */
  datatype Outcomes = Outcomes(setup: bool, cleanup: bool, register: bool)

  datatype Action =
    | Post(msg: Msg)
    | CloneHandle(g: nat)
    | DropHandle(g: nat)
    | FinishDrop(g: nat)
    | Handle(outcomes: Outcomes)
    | Stop(cleanup: bool)

  function Init(kind: Kind): State {
    State(kind, map[], [], [], map[], false)
  }

  /** `validate_compatibility` of a topic's specification, or of a service's. */
  predicate Compatible(kind: Kind, a: Spec, b: Spec) {
    && Handshake.Validate(a.md5sum, a.msgType, b.md5sum, b.msgType).Ok?
    && (IsTopic(kind) ==> Handshake.AreFieldsCompatible(a.definition, b.definition))
  }

  /** Specifications go together exactly if their md5 sums and types do and, for a topic, their definitions. */
  lemma CompatibleExact(kind: Kind, a: Spec, b: Spec)
    ensures Compatible(kind, a, b) <==>
            && Handshake.AreFieldsCompatible(a.md5sum, b.md5sum) && Handshake.AreFieldsCompatible(a.msgType, b.msgType)
            && (kind == PublisherKind || kind == SubscriberKind ==>
                  Handshake.AreFieldsCompatible(a.definition, b.definition))
  {
    Handshake.ValidateExact(a.md5sum, a.msgType, b.md5sum, b.msgType);
  }

  predicate Alive(s: State, g: nat) {
    g < |s.guards| && s.guards[g].handles > 0
  }

  predicate IsTopic(kind: Kind) {
    kind == PublisherKind || kind == SubscriberKind
  }

  /** The master after a call to unregister; a service is only forgotten at the URL it was registered with. */
  function MasterWithout(s: State, name: string, g: nat, ok: bool): map<string, nat> {
    if !ok || s.kind == ClientKind then s.master
    else if s.kind == ServerKind && !(name in s.master && s.master[name] == g) then s.master
    else s.master - {name}
  }

  /** A new endpoint is set up and registered. A service's guard exists before its master call, so that
      a failing call drops it. */
  function Fresh(s: State, name: string, spec: Spec, o: Outcomes): State {
    var g := |s.guards|;
    if !o.setup then s
    else if s.kind == ClientKind then
      s.(registry := s.registry[name := Entry(g, spec)], guards := s.guards + [Guard(name, true, 1, false)])
    else if o.register then
      s.(registry := s.registry[name := Entry(g, spec)], guards := s.guards + [Guard(name, true, 1, false)],
         master := s.master[name := g])
    else if s.kind == ServerKind then s.(guards := s.guards + [Guard(name, true, 0, false)])
    else s
  }

  /** An entry whose guard cannot be upgraded. */
  function RemoveStale(s: State, name: string, ok: bool): State
    requires name in s.registry
  {
    s.(registry := s.registry - {name},
       master := if IsTopic(s.kind) then MasterWithout(s, name, s.registry[name].guard, ok) else s.master)
  }

  function Adjusted(s: State, g: nat, guard: Guard): State
    requires g < |s.guards|
  {
    s.(guards := s.guards[g := guard])
  }

  function Register(s: State, name: string, spec: Spec, o: Outcomes): State {
    if name in s.registry then
      var e := s.registry[name];
      if Alive(s, e.guard) then
        if Compatible(s.kind, spec, e.spec) then
          Adjusted(s, e.guard, s.guards[e.guard].(handles := s.guards[e.guard].handles + 1))
        else s
      else Fresh(RemoveStale(s, name, o.cleanup), name, spec, o)
    else Fresh(s, name, spec, o)
  }

  /** The caller of a registration gets a handle: the entry's guard is alive and the specifications go together,
      or a new endpoint is set up and, but for a client, registered at the master. */
  predicate Grants(s: State, name: string, spec: Spec, o: Outcomes) {
    if name in s.registry && Alive(s, s.registry[name].guard) then Compatible(s.kind, spec, s.registry[name].spec)
    else o.setup && (s.kind == ClientKind || o.register)
  }

  function Handles(guards: seq<Guard>): nat {
    if guards == [] then 0 else Handles(guards[..|guards| - 1]) + guards[|guards| - 1].handles
  }

  lemma {:induction false} HandlesUpdated(guards: seq<Guard>, g: nat, guard: Guard)
    requires g < |guards|
    ensures Handles(guards[g := guard]) + guards[g].handles == Handles(guards) + guard.handles
  {
    var n := |guards| - 1;
    if g < n {
      HandlesUpdated(guards[..n], g, guard);
      assert guards[g := guard][..n] == guards[..n][g := guard];
    } else {
      assert guards[g := guard][..n] == guards[..n];
    }
  }

  lemma HandlesSnoc(guards: seq<Guard>, guard: Guard)
    ensures Handles(guards + [guard]) == Handles(guards) + guard.handles
  {
    assert (guards + [guard])[..|guards|] == guards;
  }

  /** A registration makes one more handle if it grants one, of the guard then listed, and none otherwise. */
  lemma GrantsExact(s: State, name: string, spec: Spec, o: Outcomes)
    ensures var s' := Register(s, name, spec, o);
            && Handles(s'.guards) == Handles(s.guards) + (if Grants(s, name, spec, o) then 1 else 0)
            && (Grants(s, name, spec, o) ==>
                  && name in s'.registry
                  && var g := s'.registry[name].guard;
                     && g < |s'.guards|
                     && s'.guards[g].handles == 1 + (if g < |s.guards| then s.guards[g].handles else 0))
  {
    hide Compatible, MasterWithout, Handles;
    if name in s.registry && Alive(s, s.registry[name].guard) {
      var g := s.registry[name].guard;
      HandlesUpdated(s.guards, g, s.guards[g].(handles := s.guards[g].handles + 1));
    } else {
      HandlesSnoc(s.guards, Guard(name, true, 1, false));
      HandlesSnoc(s.guards, Guard(name, true, 0, false));
    }
  }

  /** Handles are made by cloning one, which a service's cannot be, and by registrations that grant one; and in
      no other way. */
  lemma HandlesMade(s: State, a: Action)
    requires Enabled(s, a) && Handles(Apply(s, a).guards) > Handles(s.guards)
    ensures (a.CloneHandle? && s.kind != ServerKind)
            || (a.Handle? && s.mailbox[0].RegisterMsg? && Grants(s, s.mailbox[0].name, s.mailbox[0].spec, a.outcomes))
    ensures Handles(Apply(s, a).guards) == Handles(s.guards) + 1
  {
    hide Compatible, MasterWithout, MasterDrops, Handles, Register;
    match a
    case CloneHandle(g) => HandlesUpdated(s.guards, g, s.guards[g].(handles := s.guards[g].handles + 1));
    case DropHandle(g) => HandlesUpdated(s.guards, g, s.guards[g].(handles := s.guards[g].handles - 1));
    case FinishDrop(g) => HandlesUpdated(s.guards, g, s.guards[g].(finished := true));
    case Handle(o) =>
      var s0, m := s.(mailbox := s.mailbox[1..]), s.mailbox[0];
      if m.RegisterMsg? {
        GrantsExact(s0, m.name, m.spec, o);
      } else if m.name in s.registry && Alive(s0, s.registry[m.name].guard) {
        var g := s.registry[m.name].guard;
        HandlesUpdated(s.guards, g, s.guards[g].(armed := false));
      }
    case Stop(ok) => SameHandles(s.guards, Stopped(s, ok).guards);
    case Post(_) =>
  }

  lemma {:induction false} SameHandles(a: seq<Guard>, b: seq<Guard>)
    requires |a| == |b| && forall i | 0 <= i < |a| :: a[i].handles == b[i].handles
    ensures Handles(a) == Handles(b)
  {
    if a != [] {
      SameHandles(a[..|a| - 1], b[..|b| - 1]);
    }
  }

  /** After the shutdown nothing is handled any more: registry and master stay as they are. */
  lemma {:induction false} NothingAfterStop(s: State, acts: seq<Action>)
    requires s.stopped && IsRun(s, acts)
    ensures var s' := After(s, acts); s'.stopped && s'.registry == s.registry && s'.master == s.master
    ensures forall k | 0 <= k < |acts| :: !acts[k].Handle? && !acts[k].Stop?
    decreases |acts|
  {
    if acts != [] {
      NothingAfterStop(Apply(s, acts[0]), acts[1..]);
      assert forall k | 0 < k < |acts| :: acts[k] == acts[1..][k - 1];
    }
  }

  /** What a call to unregister does at the master: a topic is forgotten, a service only if it is registered
      at that very endpoint, and nothing if the call fails or there is no master for the kind. */
  lemma UnregisterExact(s: State, name: string, g: nat, ok: bool, n: string)
    ensures n in MasterWithout(s, name, g, ok) <==>
            && n in s.master
            && !(n == name && ok && (s.kind == PublisherKind || s.kind == SubscriberKind
                                     || (s.kind == ServerKind && s.master[name] == g)))
    ensures n in MasterWithout(s, name, g, ok) ==> MasterWithout(s, name, g, ok)[n] == s.master[n]
  {
  }

  /** A new endpoint that cannot be registered leaves nothing behind, but for a service's guard, which dies
      armed: its drop is the only thing that will come of it. */
  lemma FailedSetUp(s: State, name: string, spec: Spec, o: Outcomes)
    requires name !in s.registry && !Grants(s, name, spec, o)
    ensures var s' := Register(s, name, spec, o);
            if s.kind == ServerKind && o.setup then
              && s'.(guards := s.guards) == s && |s'.guards| == |s.guards| + 1 && s'.guards[..|s.guards|] == s.guards
              && Enabled(s', FinishDrop(|s.guards|))
              && Apply(s', FinishDrop(|s.guards|)).mailbox == s.mailbox + [DropMsg(name, |s.guards|)]
            else s' == s
  {
  }

  function Disarmed(s: State, g: nat): State {
    if Alive(s, g) then Adjusted(s, g, s.guards[g].(armed := false)) else s
  }

  /** A client's entry is removed without disarming its guard. */
  function Unregister(s: State, name: string, ok: bool): State {
    if name !in s.registry then s
    else
      var g := s.registry[name].guard;
      var s' := if s.kind == ClientKind then s else Disarmed(s, g);
      s'.(registry := s.registry - {name}, master := MasterWithout(s, name, g, ok))
  }

  predicate Listed(s: State, g: nat) {
    g < |s.guards| && s.guards[g].name in s.registry && s.registry[s.guards[g].name].guard == g
  }

  /** `post_stop`. */
  function Stopped(s: State, ok: bool): State {
    s.(registry := map[], stopped := true,
       guards := seq(|s.guards|, g requires 0 <= g < |s.guards| =>
         if Alive(s, g) && Listed(s, g) then s.guards[g].(armed := false) else s.guards[g]),
       master := map n | n in s.master && !(n in s.registry && MasterDrops(s, n, ok)) :: s.master[n])
  }

  predicate MasterDrops(s: State, name: string, ok: bool)
    requires name in s.registry
  {
    name !in MasterWithout(s, name, s.registry[name].guard, ok)
  }

  predicate Enabled(s: State, a: Action) {
    match a
    case Post(m) => m.RegisterMsg? || (m.UnregisterMsg? && IsTopic(s.kind))
    case CloneHandle(g) => Alive(s, g) && s.kind != ServerKind
    case DropHandle(g) => Alive(s, g)
    case FinishDrop(g) => g < |s.guards| && s.guards[g].handles == 0 && !s.guards[g].finished
    case Handle(_) => !s.stopped && s.mailbox != []
    case Stop(_) => !s.stopped
  }

  function Apply(s: State, a: Action): State
    requires Enabled(s, a)
  {
    match a
    case Post(m) => s.(mailbox := s.mailbox + [m])
    case CloneHandle(g) => Adjusted(s, g, s.guards[g].(handles := s.guards[g].handles + 1))
    case DropHandle(g) => Adjusted(s, g, s.guards[g].(handles := s.guards[g].handles - 1))
    case FinishDrop(g) =>
      Adjusted(s, g, s.guards[g].(finished := true)).(
        mailbox := if s.guards[g].armed then s.mailbox + [DropMsg(s.guards[g].name, g)] else s.mailbox)
    case Handle(o) => HandleMsg(s.(mailbox := s.mailbox[1..]), s.mailbox[0], o)
    case Stop(ok) => Stopped(s, ok)
  }

  function HandleMsg(s: State, m: Msg, o: Outcomes): State {
    match m
    case RegisterMsg(name, spec) => Register(s, name, spec, o)
    case UnregisterMsg(name) => Unregister(s, name, o.cleanup)
    case DropMsg(name, _) => Unregister(s, name, o.cleanup)
  }

  predicate IsRun(s: State, acts: seq<Action>)
    decreases |acts|
  {
    acts == [] || (Enabled(s, acts[0]) && IsRun(Apply(s, acts[0]), acts[1..]))
  }

  function After(s: State, acts: seq<Action>): State
    requires IsRun(s, acts)
    decreases |acts|
  {
    if acts == [] then s else After(Apply(s, acts[0]), acts[1..])
  }

  // ---------------------------------------------------------------- What every run keeps

  predicate MailOk(guards: seq<Guard>, mailbox: seq<Msg>) {
    && (forall i | 0 <= i < |mailbox| && mailbox[i].DropMsg? ::
          && mailbox[i].from < |guards|
          && guards[mailbox[i].from].finished && guards[mailbox[i].from].armed
          && guards[mailbox[i].from].name == mailbox[i].name)
    && (forall i, j | 0 <= i < j < |mailbox| && mailbox[i].DropMsg? && mailbox[j].DropMsg? ::
          mailbox[i].from != mailbox[j].from)
  }

  predicate RegistryOk(s: State) {
    && (forall n | n in s.registry :: s.registry[n].guard < |s.guards| && s.guards[s.registry[n].guard].name == n)
    && (forall g | 0 <= g < |s.guards| :: s.guards[g].finished ==> s.guards[g].handles == 0)
  }

  predicate ArmedListed(s: State) {
    s.kind != ClientKind ==> forall g | 0 <= g < |s.guards| && Alive(s, g) && s.guards[g].armed :: Listed(s, g)
  }

  predicate Inv(s: State) {
    RegistryOk(s) && MailOk(s.guards, s.mailbox) && ArmedListed(s)
  }

  lemma MailKeeps(guards: seq<Guard>, guards': seq<Guard>, mailbox: seq<Msg>)
    requires MailOk(guards, mailbox) && |guards| <= |guards'|
    requires forall g | 0 <= g < |guards| && guards[g].finished :: guards'[g] == guards[g]
    ensures MailOk(guards', mailbox)
  {
  }

  lemma InvAdjusted(s: State, g: nat, guard: Guard)
    requires Inv(s) && g < |s.guards| && !s.guards[g].finished && !guard.finished
    requires guard.name == s.guards[g].name
    requires guard.armed && guard.handles > 0 ==> s.guards[g].armed && s.guards[g].handles > 0
    ensures Inv(Adjusted(s, g, guard))
  {
    hide MailOk;
    var s' := Adjusted(s, g, guard);
    MailKeeps(s.guards, s'.guards, s.mailbox);
    forall k | 0 <= k < |s'.guards| && Alive(s', k) && s'.guards[k].armed && s.kind != ClientKind ensures Listed(s', k) {
      assert Listed(s, k);
    }
  }

  lemma InvFresh(s: State, name: string, spec: Spec, o: Outcomes)
    requires Inv(s) && name !in s.registry
    ensures Inv(Fresh(s, name, spec, o))
  {
    hide MailOk;
    var s', g := Fresh(s, name, spec, o), |s.guards|;
    MailKeeps(s.guards, s'.guards, s.mailbox);
    forall k | 0 <= k < |s'.guards| && Alive(s', k) && s'.guards[k].armed && s.kind != ClientKind ensures Listed(s', k) {
      assert k < g ==> Listed(s, k);
    }
  }

  /** An entry may be removed if its guard is not alive, or disarmed. */
  lemma InvRemove(s: State, s': State, name: string)
    requires Inv(s) && name in s.registry
    requires s' == s.(registry := s.registry - {name}, master := s'.master)
    requires s.kind != ClientKind ==> var g := s.registry[name].guard; Alive(s, g) ==> !s.guards[g].armed
    ensures Inv(s')
  {
    hide MailOk;
    forall k | 0 <= k < |s'.guards| && Alive(s', k) && s'.guards[k].armed && s.kind != ClientKind ensures Listed(s', k) {
      assert Listed(s, k);
    }
  }

  lemma InvRegister(s: State, name: string, spec: Spec, o: Outcomes)
    requires Inv(s)
    ensures Inv(Register(s, name, spec, o))
  {
    hide Compatible, Inv, Fresh, MasterWithout;
    assert RegistryOk(s) by { InvParts(s); }
    if name in s.registry {
      var e := s.registry[name];
      if Alive(s, e.guard) {
        InvAdjusted(s, e.guard, s.guards[e.guard].(handles := s.guards[e.guard].handles + 1));
      } else {
        var s' := RemoveStale(s, name, o.cleanup);
        InvRemove(s, s', name);
        InvFresh(s', name, spec, o);
      }
    } else {
      InvFresh(s, name, spec, o);
    }
  }

  lemma InvParts(s: State)
    requires Inv(s)
    ensures RegistryOk(s) && MailOk(s.guards, s.mailbox) && ArmedListed(s)
  {
  }

  lemma InvUnregister(s: State, name: string, ok: bool)
    requires Inv(s)
    ensures Inv(Unregister(s, name, ok))
  {
    hide Inv, MasterWithout;
    assert RegistryOk(s) by { InvParts(s); }
    if name in s.registry {
      var g := s.registry[name].guard;
      if s.kind != ClientKind && Alive(s, g) {
        InvAdjusted(s, g, s.guards[g].(armed := false));
      }
      InvRemove(if s.kind == ClientKind then s else Disarmed(s, g), Unregister(s, name, ok), name);
    }
  }

  lemma InvMail(s: State, m: Msg)
    requires Inv(s) && !m.DropMsg?
    ensures Inv(s.(mailbox := s.mailbox + [m]))
    ensures s.mailbox != [] ==> Inv(s.(mailbox := s.mailbox[1..]))
  {
  }

  lemma InvFinish(s: State, g: nat)
    requires Inv(s) && Enabled(s, FinishDrop(g))
    ensures Inv(Apply(s, FinishDrop(g)))
  {
    var s' := Apply(s, FinishDrop(g));
    MailKeeps(s.guards, s'.guards, s.mailbox);
    forall k | 0 <= k < |s'.guards| && Alive(s', k) && s'.guards[k].armed && s.kind != ClientKind ensures Listed(s', k) {
      assert Listed(s, k);
    }
  }

  lemma InvStopped(s: State, ok: bool)
    requires Inv(s)
    ensures Inv(Stopped(s, ok))
  {
    hide MasterDrops, MailOk;
    var s' := Stopped(s, ok);
    MailKeeps(s.guards, s'.guards, s.mailbox);
    assert forall g | 0 <= g < |s.guards| && Alive(s', g) && s'.guards[g].armed ::
        Alive(s, g) && s.guards[g].armed && !Listed(s, g);
  }

  lemma InvStep(s: State, a: Action)
    requires Inv(s) && Enabled(s, a)
    ensures Inv(Apply(s, a))
  {
    hide Register, Unregister, Inv, Stopped;
    InvParts(s);
    match a {
      case Post(m) => InvMail(s, m);
      case CloneHandle(g) => InvAdjusted(s, g, s.guards[g].(handles := s.guards[g].handles + 1));
      case DropHandle(g) => InvAdjusted(s, g, s.guards[g].(handles := s.guards[g].handles - 1));
      case FinishDrop(g) => InvFinish(s, g);
      case Handle(o) =>
        InvMail(s, UnregisterMsg(""));
        InvHandle(s.(mailbox := s.mailbox[1..]), s.mailbox[0], o);
      case Stop(ok) => InvStopped(s, ok);
    }
  }

  lemma InvHandle(s: State, m: Msg, o: Outcomes)
    requires Inv(s)
    ensures Inv(HandleMsg(s, m, o))
  {
    hide Register, Unregister, Inv;
    match m
    case RegisterMsg(name, spec) => InvRegister(s, name, spec, o);
    case UnregisterMsg(name) => InvUnregister(s, name, o.cleanup);
    case DropMsg(name, _) => InvUnregister(s, name, o.cleanup);
  }

  lemma {:induction false} RunInv(s: State, acts: seq<Action>)
    requires Inv(s) && IsRun(s, acts)
    ensures Inv(After(s, acts))
    decreases |acts|
  {
    hide Inv, Apply, Enabled;
    if acts != [] {
      InvStep(s, acts[0]);
      RunInv(Apply(s, acts[0]), acts[1..]);
    }
  }
}
