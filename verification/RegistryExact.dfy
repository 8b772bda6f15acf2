/** Where the registries' guarantees end: a registration that overtakes an old drop, and a service
    whose set-up fails after its stale entry was removed. */
module RegistryExact {
  import opened Registry
  import opened GuardLifecycle

  // ---------------------------------------------------------------- Everything under way, delivered

  predicate OnlyDrops(mailbox: seq<Msg>) {
    forall i | 0 <= i < |mailbox| :: mailbox[i].DropMsg?
  }

  predicate HasDrop(mailbox: seq<Msg>, name: string) {
    exists i | 0 <= i < |mailbox| :: mailbox[i].DropMsg? && mailbox[i].name == name
  }

  predicate HasUnregister(mailbox: seq<Msg>, name: string) {
    exists i | 0 <= i < |mailbox| :: mailbox[i].UnregisterMsg? && mailbox[i].name == name
  }

  lemma HasUnregisterSnoc(mailbox: seq<Msg>, m: Msg, name: string)
    requires m.DropMsg?
    ensures HasUnregister(mailbox + [m], name) <==> HasUnregister(mailbox, name)
  {
    if HasUnregister(mailbox, name) {
      var i :| 0 <= i < |mailbox| && mailbox[i].UnregisterMsg? && mailbox[i].name == name;
      assert (mailbox + [m])[i] == mailbox[i];
    }
  }

  /** Every destructor from guard `i` on has run. */
  function FinishAll(s: State, i: nat): (s': State)
    requires i <= |s.guards|
    ensures s'.registry == s.registry && s'.kind == s.kind && s'.master == s.master && |s'.guards| == |s.guards|
    ensures forall g | 0 <= g < |s.guards| :: s'.guards[g] == s.guards[g].(finished := s'.guards[g].finished)
    decreases |s.guards| - i
  {
    if i == |s.guards| then s
    else if Enabled(s, FinishDrop(i)) then FinishAll(Apply(s, FinishDrop(i)), i + 1)
    else FinishAll(s, i + 1)
  }

  lemma {:induction false} FinishAllPosts(s: State, i: nat, name: string)
    requires i <= |s.guards|
    ensures OnlyDrops(s.mailbox) ==> OnlyDrops(FinishAll(s, i).mailbox)
    ensures HasUnregister(FinishAll(s, i).mailbox, name) <==> HasUnregister(s.mailbox, name)
    ensures HasDrop(FinishAll(s, i).mailbox, name) <==>
            || HasDrop(s.mailbox, name)
            || exists g | i <= g < |s.guards| :: Dying(s.guards[g]) && s.guards[g].name == name
    decreases |s.guards| - i
  {
    if i < |s.guards| {
      if Enabled(s, FinishDrop(i)) {
        var s' := Apply(s, FinishDrop(i));
        if s.guards[i].armed {
          HasDropSnoc(s.mailbox, DropMsg(s.guards[i].name, i), name);
          HasUnregisterSnoc(s.mailbox, DropMsg(s.guards[i].name, i), name);
        }
        FinishAllPosts(s', i + 1, name);
        assert forall g | i < g < |s.guards| :: s'.guards[g] == s.guards[g];
      } else {
        FinishAllPosts(s, i + 1, name);
      }
    }
  }

  predicate Dying(guard: Guard) {
    guard.armed && guard.handles == 0 && !guard.finished
  }

  lemma HasDropSnoc(mailbox: seq<Msg>, m: Msg, name: string)
    requires m.DropMsg?
    ensures HasDrop(mailbox + [m], name) <==> HasDrop(mailbox, name) || m.name == name
  {
    assert (mailbox + [m])[|mailbox|] == m;
    if HasDrop(mailbox, name) {
      var i :| 0 <= i < |mailbox| && mailbox[i].DropMsg? && mailbox[i].name == name;
      assert (mailbox + [m])[i] == mailbox[i];
    }
  }

  lemma HasDropCons(mailbox: seq<Msg>, name: string)
    requires mailbox != [] && mailbox[0].DropMsg?
    ensures HasDrop(mailbox, name) <==> mailbox[0].name == name || HasDrop(mailbox[1..], name)
  {
    if HasDrop(mailbox[1..], name) {
      var i :| 0 <= i < |mailbox[1..]| && mailbox[1..][i].DropMsg? && mailbox[1..][i].name == name;
      assert mailbox[i + 1] == mailbox[1..][i];
    }
    if HasDrop(mailbox, name) && mailbox[0].name != name {
      var i :| 0 <= i < |mailbox| && mailbox[i].DropMsg? && mailbox[i].name == name;
      assert mailbox[1..][i - 1] == mailbox[i];
    }
  }

  lemma NoHandlesLeft(s: State, g: nat)
    requires RegistryOk(s) && g < |s.guards| && s.guards[g].finished
    ensures s.guards[g].handles == 0
  {
  }

  // ---------------------------------------------------------------- How long a live handle stays listed

  /** The shutdown, or the handling of a drop or an unregistering of the guard's name. */
  predicate Delists(s: State, a: Action, g: nat)
    requires g < |s.guards|
  {
    || a.Stop?
    || (a.Handle? && s.mailbox != [] && !s.mailbox[0].RegisterMsg? && s.mailbox[0].name == s.guards[g].name)
  }

  /** Some step of the run delists the guard once it is there. */
  predicate DelistedIn(s: State, acts: seq<Action>, g: nat)
    requires IsRun(s, acts)
    decreases |acts|
  {
    acts != [] && ((g < |s.guards| && Delists(s, acts[0], g)) || DelistedIn(Apply(s, acts[0]), acts[1..], g))
  }

  lemma NameKept(s: State, a: Action, g: nat)
    requires Enabled(s, a) && g < |s.guards|
    ensures g < |Apply(s, a).guards| && Apply(s, a).guards[g].name == s.guards[g].name
    ensures Alive(Apply(s, a), g) ==> Alive(s, g)
  {
    hide Compatible, MasterWithout, MasterDrops;
  }

  lemma ListedRegister(s: State, name: string, spec: Spec, o: Outcomes, g: nat)
    requires RegistryOk(s)
    ensures var s' := Register(s, name, spec, o);
            && (g < |s.guards| && Alive(s, g) ==> (Listed(s', g) <==> Listed(s, g)))
            && (|s.guards| <= g && Alive(s', g) ==> Listed(s', g))
  {
    hide Compatible, MasterWithout, Fresh, RegistryOk;
    if name in s.registry && !Alive(s, s.registry[name].guard) {
      ListedFresh(RemoveStale(s, name, o.cleanup), name, spec, o, g);
      if g < |s.guards| && Alive(s, g) && Listed(s, g) {
        assert s.guards[g].name != name;
      }
    } else if name !in s.registry {
      ListedFresh(s, name, spec, o, g);
    }
  }

  lemma ListedFresh(s: State, name: string, spec: Spec, o: Outcomes, g: nat)
    requires name !in s.registry
    ensures var s' := Fresh(s, name, spec, o);
            && (g < |s.guards| ==> (Listed(s', g) <==> Listed(s, g)))
            && (|s.guards| <= g && Alive(s', g) ==> Listed(s', g))
  {
  }

  lemma ListedUnregister(s: State, name: string, ok: bool, g: nat)
    requires g < |s.guards|
    ensures Listed(Unregister(s, name, ok), g) <==> Listed(s, g) && s.guards[g].name != name
    ensures |Unregister(s, name, ok).guards| == |s.guards|
  {
    hide MasterWithout;
  }

  lemma NothingMade(s: State, a: Action)
    requires Enabled(s, a) && !(a.Handle? && s.mailbox[0].RegisterMsg?)
    ensures |Apply(s, a).guards| == |s.guards|
  {
    hide MasterWithout, MasterDrops;
  }

  lemma ListedElsewhere(s: State, a: Action, g: nat)
    requires Enabled(s, a) && !a.Handle? && g < |s.guards|
    ensures Listed(Apply(s, a), g) <==> Listed(s, g) && !a.Stop?
  {
    hide MasterDrops, Register, Unregister;
  }

  /** One step: a guard with handles is listed from the start, and until it is delisted. */
  lemma ListedStep(s: State, a: Action, g: nat)
    requires RegistryOk(s) && Enabled(s, a) && Alive(Apply(s, a), g)
    ensures g < |s.guards| ==> Alive(s, g) && (Listed(Apply(s, a), g) <==> Listed(s, g) && !Delists(s, a, g))
    ensures |s.guards| <= g ==> Listed(Apply(s, a), g)
  {
    hide Register, Unregister, Compatible;
    if g < |s.guards| {
      NameKept(s, a, g);
    }
    if !(a.Handle? && s.mailbox[0].RegisterMsg?) {
      NothingMade(s, a);
    }
    if a.Handle? {
      var s0, m := s.(mailbox := s.mailbox[1..]), s.mailbox[0];
      match m {
        case RegisterMsg(name, spec) => ListedRegister(s0, name, spec, a.outcomes, g);
        case UnregisterMsg(name) => ListedUnregister(s0, name, a.outcomes.cleanup, g);
        case DropMsg(name, _) => ListedUnregister(s0, name, a.outcomes.cleanup, g);
      }
    } else if g < |s.guards| {
      ListedElsewhere(s, a, g);
    }
  }

  lemma {:induction false} AliveBefore(s: State, acts: seq<Action>, g: nat)
    requires IsRun(s, acts) && g < |s.guards| && Alive(After(s, acts), g)
    ensures Alive(s, g)
    decreases |acts|
  {
    hide Apply, Enabled;
    if acts != [] {
      NameKept(s, acts[0], g);
      AliveBefore(Apply(s, acts[0]), acts[1..], g);
    }
  }

  lemma {:induction false} ListedFrom(s: State, acts: seq<Action>, g: nat)
    requires Inv(s) && IsRun(s, acts) && Alive(After(s, acts), g)
    ensures Listed(After(s, acts), g) <==> (g < |s.guards| ==> Listed(s, g)) && !DelistedIn(s, acts, g)
    decreases |acts|
  {
    hide Inv, Apply, Enabled, Delists, Listed, RegistryOk, MailOk, ArmedListed;
    if acts != [] {
      var s1 := Apply(s, acts[0]);
      InvParts(s);
      InvStep(s, acts[0]);
      KindStep(s, acts[0]);
      ListedFrom(s1, acts[1..], g);
      if g < |s1.guards| {
        AliveBefore(s1, acts[1..], g);
        ListedStep(s, acts[0], g);
      }
    }
  }

  /** In every run of every kind, whatever fails and whatever is in the mailbox: a guard that has handles is
      listed by the registry exactly if, since it was made, there was no shutdown and no drop or
      unregistering of its name was handled. */
  lemma ListedExact(kind: Kind, acts: seq<Action>, g: nat)
    requires IsRun(Init(kind), acts) && Alive(After(Init(kind), acts), g)
    ensures Listed(After(Init(kind), acts), g) <==> !DelistedIn(Init(kind), acts, g)
  {
    hide Inv, Apply, Enabled, Delists, Listed;
    StartInv(kind);
    ListedFrom(Init(kind), acts, g);
  }

  lemma StartInv(kind: Kind)
    ensures Inv(Init(kind))
  {
  }

  // ---------------------------------------------------------------- When a registration is safe

  /** Everything in the mailbox, handled in order; the calls for the message before `k - 1` others have the
      outcomes `os(k)`. */
  function HandleAll(s: State, os: nat -> Outcomes): State
    decreases |s.mailbox|
  {
    if s.mailbox == [] then s
    else
      var s0 := s.(mailbox := s.mailbox[1..]);
      HandlingKeepsMail(s0, s.mailbox[0], os(|s.mailbox|));
      HandleAll(HandleMsg(s0, s.mailbox[0], os(|s.mailbox|)), os)
  }

  lemma HandlingKeepsMail(s: State, m: Msg, o: Outcomes)
    ensures HandleMsg(s, m, o).mailbox == s.mailbox
  {
    hide Compatible, MasterWithout;
  }

  predicate HasRemoval(mailbox: seq<Msg>, name: string) {
    HasDrop(mailbox, name) || HasUnregister(mailbox, name)
  }

  lemma HasRemovalCons(mailbox: seq<Msg>, name: string)
    requires mailbox != []
    ensures HasRemoval(mailbox, name) <==>
            (!mailbox[0].RegisterMsg? && mailbox[0].name == name) || HasRemoval(mailbox[1..], name)
  {
    if HasRemoval(mailbox[1..], name) {
      var i :| 0 <= i < |mailbox[1..]| && !mailbox[1..][i].RegisterMsg? && mailbox[1..][i].name == name;
      assert mailbox[i + 1] == mailbox[1..][i];
    }
    if HasRemoval(mailbox, name) && (mailbox[0].RegisterMsg? || mailbox[0].name != name) {
      var i :| 0 <= i < |mailbox| && !mailbox[i].RegisterMsg? && mailbox[i].name == name;
      assert mailbox[1..][i - 1] == mailbox[i];
    }
  }

  lemma HandlingKeepsAlive(s: State, m: Msg, o: Outcomes, g: nat)
    requires Alive(s, g)
    ensures Alive(HandleMsg(s, m, o), g) && HandleMsg(s, m, o).guards[g].name == s.guards[g].name
  {
    hide Compatible, MasterWithout;
  }

  lemma {:induction false} HandleAllExact(s: State, os: nat -> Outcomes, g: nat)
    requires Inv(s) && Alive(s, g)
    ensures Alive(HandleAll(s, os), g)
    ensures Listed(HandleAll(s, os), g) <==> Listed(s, g) && !HasRemoval(s.mailbox, s.guards[g].name)
    decreases |s.mailbox|
  {
    hide Inv, HandleMsg, Listed, HasRemoval, RegistryOk, MailOk, ArmedListed, Register, Unregister;
    if s.mailbox != [] {
      var s0, m, o := s.(mailbox := s.mailbox[1..]), s.mailbox[0], os(|s.mailbox|);
      InvTail(s);
      InvHandle(s0, m, o);
      InvParts(s0);
      HandlingKeepsMail(s0, m, o);
      HandlingKeepsAlive(s0, m, o, g);
      HandlingExact(s0, m, o, g);
      HasRemovalCons(s.mailbox, s.guards[g].name);
      HandleAllExact(HandleMsg(s0, m, o), os, g);
      ListedIgnoresMail(s, g);
    } else {
      NoRemoval(s.guards[g].name);
    }
  }

  lemma NoRemoval(name: string)
    ensures !HasRemoval([], name)
  {
  }

  lemma InvTail(s: State)
    requires Inv(s) && s.mailbox != []
    ensures Inv(s.(mailbox := s.mailbox[1..]))
  {
    InvMail(s, UnregisterMsg(""));
  }

  lemma ListedIgnoresMail(s: State, g: nat)
    requires s.mailbox != []
    ensures Listed(s.(mailbox := s.mailbox[1..]), g) == Listed(s, g)
  {
  }

  lemma HandlingExact(s: State, m: Msg, o: Outcomes, g: nat)
    requires RegistryOk(s) && Alive(s, g)
    ensures Listed(HandleMsg(s, m, o), g) <==> Listed(s, g) && (m.RegisterMsg? || m.name != s.guards[g].name)
  {
    hide Register, Unregister, Listed, RegistryOk;
    match m
    case RegisterMsg(name, spec) => ListedRegister(s, name, spec, o, g);
    case UnregisterMsg(name) => ListedUnregister(s, name, o.cleanup, g);
    case DropMsg(name, _) => ListedUnregister(s, name, o.cleanup, g);
  }

  lemma {:induction false} FinishAllInv(s: State, i: nat)
    requires Inv(s) && i <= |s.guards|
    ensures Inv(FinishAll(s, i))
    decreases |s.guards| - i
  {
    hide Inv;
    if i < |s.guards| {
      if Enabled(s, FinishDrop(i)) {
        InvStep(s, FinishDrop(i));
        FinishAllInv(Apply(s, FinishDrop(i)), i + 1);
      } else {
        FinishAllInv(s, i + 1);
      }
    }
  }

  /** Destructors run, and everything in the mailbox handled. */
  function Delivered(s: State, os: nat -> Outcomes): State {
    HandleAll(FinishAll(s, 0), os)
  }

  /** Delivering everything, whatever there is and whatever fails, leaves a live guard listed exactly if no
      drop for its name was undelivered and no unregistering of it waiting. */
  lemma DeliveredExact(s: State, os: nat -> Outcomes, g: nat)
    requires Inv(s) && Alive(s, g)
    ensures Alive(Delivered(s, os), g)
    ensures var name := s.guards[g].name;
            Listed(Delivered(s, os), g) <==> Listed(s, g) && !Undelivered(s, name) && !HasUnregister(s.mailbox, name)
  {
    hide Inv, FinishAll, HandleAll, RegistryOk, ArmedListed, HasUnregister, HasDrop, MailOk;
    var name := s.guards[g].name;
    FinishAllInv(s, 0);
    FinishAllPosts(s, 0, name);
    HandleAllExact(FinishAll(s, 0), os, g);
    UndeliveredIsDrop(s, name);
  }

  lemma UndeliveredIsDrop(s: State, n: string)
    requires Inv(s)
    ensures Undelivered(s, n) <==>
            HasDrop(s.mailbox, n) || exists g | 0 <= g < |s.guards| :: Dying(s.guards[g]) && s.guards[g].name == n
  {
    hide RegistryOk, ArmedListed;
    if HasDrop(s.mailbox, n) {
      var i :| 0 <= i < |s.mailbox| && s.mailbox[i].DropMsg? && s.mailbox[i].name == n;
      assert Posted(s, s.mailbox[i].from);
      assert RegistryOk(s) by { InvParts(s); }
      NoHandlesLeft(s, s.mailbox[i].from);
      assert s.guards[s.mailbox[i].from].name == n && Pending(s, s.mailbox[i].from);
    }
    if g :| 0 <= g < |s.guards| && Dying(s.guards[g]) && s.guards[g].name == n {
      assert Pending(s, g);
    }
    if Undelivered(s, n) {
      var g :| 0 <= g < |s.guards| && s.guards[g].name == n && Pending(s, g);
      if s.guards[g].finished {
        var i :| 0 <= i < |s.mailbox| && s.mailbox[i].DropMsg? && s.mailbox[i].from == g;
        assert s.mailbox[i].name == n;
      } else {
        assert Dying(s.guards[g]);
      }
    }
  }

  lemma MailUntouched(s: State, name: string, ok: bool)
    ensures Unregister(s, name, ok).mailbox == s.mailbox
    ensures Unregister(s, name, ok).registry == s.registry - {name}
    ensures |Unregister(s, name, ok).guards| == |s.guards|
    ensures forall g | 0 <= g < |s.guards| :: Unregister(s, name, ok).guards[g].handles == s.guards[g].handles
  {
    hide MasterWithout;
  }

  lemma {:induction false} HandleDropsExact(s: State, os: nat -> Outcomes, n: string)
    requires OnlyDrops(s.mailbox)
    ensures n in HandleAll(s, os).registry <==> n in s.registry && !HasDrop(s.mailbox, n)
    ensures n in HandleAll(s, os).registry ==> HandleAll(s, os).registry[n] == s.registry[n]
    ensures |HandleAll(s, os).guards| == |s.guards|
    ensures forall g | 0 <= g < |s.guards| :: HandleAll(s, os).guards[g].handles == s.guards[g].handles
    decreases |s.mailbox|
  {
    hide Unregister;
    if s.mailbox != [] {
      var s1, name, o := s.(mailbox := s.mailbox[1..]), s.mailbox[0].name, os(|s.mailbox|);
      MailUntouched(s1, name, o.cleanup);
      HasDropCons(s.mailbox, n);
      HandleDropsExact(Unregister(s1, name, o.cleanup), os, n);
    }
  }

  /** With nothing but drops in the mailbox, delivering everything, whatever fails, leaves the entries with no
      drop undelivered, and every handle. */
  lemma SettledExact(s: State, os: nat -> Outcomes, n: string)
    requires Inv(s) && OnlyDrops(s.mailbox)
    ensures n in Delivered(s, os).registry <==> n in s.registry && !Undelivered(s, n)
    ensures n in Delivered(s, os).registry ==> Delivered(s, os).registry[n] == s.registry[n]
    ensures forall g | 0 <= g < |s.guards| :: Alive(Delivered(s, os), g) == Alive(s, g)
  {
    hide FinishAll, HandleAll, RegistryOk, ArmedListed;
    FinishAllPosts(s, 0, n);
    HandleDropsExact(FinishAll(s, 0), os, n);
    UndeliveredIsDrop(s, n);
  }

  /** A registration that succeeds, in any state a run may reach, grants a live handle. Once everything
      under way and in the mailbox is delivered, whatever fails, the registry still lists that handle's
      guard exactly when no drop for the name was undelivered and no unregistering of it waiting. */
  lemma RegistrationExact(s: State, o: Outcomes, os: nat -> Outcomes)
    requires Inv(s) && Enabled(s, Handle(o)) && s.mailbox[0].RegisterMsg?
    requires o.setup && o.register
    requires var name := s.mailbox[0].name;
             name in s.registry && Alive(s, s.registry[name].guard) ==>
               Compatible(s.kind, s.mailbox[0].spec, s.registry[name].spec)
    ensures var name, s' := s.mailbox[0].name, Apply(s, Handle(o));
            && name in s'.registry && s'.mailbox == s.mailbox[1..]
            && var g := s'.registry[name].guard;
               && Alive(s', g) && Alive(Delivered(s', os), g) && Listed(s', g)
               && (Listed(Delivered(s', os), g) <==> !Undelivered(s, name) && !HasUnregister(s.mailbox, name))
  {
    hide Inv, Posted, Compatible, MailOk, RegistryOk, ArmedListed, Delivered, HasUnregister;
    var name, s', s0 := s.mailbox[0].name, Apply(s, Handle(o)), s.(mailbox := s.mailbox[1..]);
    InvParts(s);
    InvStep(s, Handle(o));
    InvParts(s');
    Granted(s0, name, s.mailbox[0].spec, o);
    GuardNamed(s', name);
    DeliveredExact(s', os, s'.registry[name].guard);
    HasUnregisterCons(s.mailbox, name);
    forall k: nat ensures Pending(s', k) == Pending(s, k) && (Pending(s, k) ==> s'.guards[k] == s.guards[k]) {
      PostedLess(s, s', k);
    }
  }

  lemma GuardNamed(s: State, name: string)
    requires RegistryOk(s) && name in s.registry
    ensures s.registry[name].guard < |s.guards| && s.guards[s.registry[name].guard].name == name
  {
  }

  lemma HasUnregisterCons(mailbox: seq<Msg>, name: string)
    requires mailbox != [] && mailbox[0].RegisterMsg?
    ensures HasUnregister(mailbox[1..], name) <==> HasUnregister(mailbox, name)
  {
    if HasUnregister(mailbox[1..], name) {
      var i :| 0 <= i < |mailbox[1..]| && mailbox[1..][i].UnregisterMsg? && mailbox[1..][i].name == name;
      assert mailbox[i + 1] == mailbox[1..][i];
    }
    if HasUnregister(mailbox, name) {
      var i :| 0 <= i < |mailbox| && mailbox[i].UnregisterMsg? && mailbox[i].name == name;
      assert mailbox[1..][i - 1] == mailbox[i];
    }
  }

  /** Guards without handles are untouched, and none is made. */
  lemma Granted(s: State, name: string, spec: Spec, o: Outcomes)
    requires o.setup && o.register
    requires name in s.registry && Alive(s, s.registry[name].guard) ==> Compatible(s.kind, spec, s.registry[name].spec)
    ensures var s' := Register(s, name, spec, o);
            && name in s'.registry && Alive(s', s'.registry[name].guard) && s'.mailbox == s.mailbox
            && |s'.guards| >= |s.guards|
            && (forall g | 0 <= g < |s.guards| && s.guards[g].handles == 0 :: s'.guards[g] == s.guards[g])
            && (forall g | 0 <= g < |s'.guards| && s'.guards[g].handles == 0 :: g < |s.guards| && s'.guards[g] == s.guards[g])
  {
    hide Compatible, MasterWithout;
  }

  lemma {:induction false} Extend(s: State, acts: seq<Action>, a: Action)
    requires IsRun(s, acts) && Enabled(After(s, acts), a)
    ensures IsRun(s, acts + [a]) && After(s, acts + [a]) == Apply(After(s, acts), a)
    decreases |acts|
  {
    hide Apply, Enabled;
    if acts == [] {
      assert [a][1..] == [];
    } else {
      Extend(Apply(s, acts[0]), acts[1..], a);
      assert (acts + [a])[1..] == acts[1..] + [a];
    }
  }

  const AllSucceed := Outcomes(true, true, true)

  /** The only handle of a name is dropped with its next registration already in the mailbox. */
  lemma Overtaken(kind: Kind, name: string, spec: Spec) returns (acts: seq<Action>)
    ensures IsRun(Init(kind), acts)
    ensures After(Init(kind), acts) ==
            State(kind, map[name := Entry(0, spec)], [Guard(name, true, 0, true)],
                  [RegisterMsg(name, spec), DropMsg(name, 0)],
                  if kind == ClientKind then map[] else map[name := 0], false)
  {
    var s0, m := Init(kind), RegisterMsg(name, spec);
    assert IsRun(s0, []) && After(s0, []) == s0;
    hide IsRun, After, Compatible, MasterDrops;
    acts := [];
    Extend(s0, acts, Post(m));
    acts := acts + [Post(m)];
    assert After(s0, acts) == s0.(mailbox := [m]);
    Extend(s0, acts, Handle(AllSucceed));
    acts := acts + [Handle(AllSucceed)];
    Extend(s0, acts, DropHandle(0));
    acts := acts + [DropHandle(0)];
    Extend(s0, acts, Post(m));
    acts := acts + [Post(m)];
    assert After(s0, acts).mailbox == [m];
    Extend(s0, acts, FinishDrop(0));
    acts := acts + [FinishDrop(0)];
  }

  /** The old drop then kills the new registration, though every call succeeds: its handle lives on with
      no entry and nothing at the master, its guard disarmed (except a client's). */
  lemma OldDropKillsNewHandle(kind: Kind, name: string, spec: Spec) returns (acts: seq<Action>)
    ensures IsRun(Init(kind), acts)
    ensures var s := After(Init(kind), acts);
            && Alive(s, 1) && s.guards[1] == Guard(name, kind == ClientKind, 1, false)
            && s.registry == map[] && s.master == map[] && s.mailbox == []
  {
    hide IsRun, After, Compatible, MasterDrops;
    var s0 := Init(kind);
    acts := Overtaken(kind, name, spec);
    Extend(s0, acts, Handle(AllSucceed));
    acts := acts + [Handle(AllSucceed)];
    assert After(s0, acts).mailbox == [DropMsg(name, 0)];
    assert After(s0, acts).registry == map[name := Entry(1, spec)];
    assert After(s0, acts).master == if kind == ClientKind then map[] else map[name := 1];
    Extend(s0, acts, Handle(AllSucceed));
    acts := acts + [Handle(AllSucceed)];
  }

  /** A service that is registered again while its old drop is under way, and whose new endpoint cannot be
      set up: its entry is gone, the old drop finds nothing to do, and the master still lists it. */
  lemma FailedReplacementStaysRegistered(name: string, spec: Spec) returns (acts: seq<Action>)
    ensures IsRun(Init(ServerKind), acts)
    ensures var s := After(Init(ServerKind), acts);
            s.registry == map[] && s.mailbox == [] && s.master == map[name := 0] && !Alive(s, 0) && |s.guards| == 1
  {
    hide IsRun, After, Compatible, MasterDrops;
    var s0, unset := Init(ServerKind), Outcomes(false, true, true);
    acts := Overtaken(ServerKind, name, spec);
    Extend(s0, acts, Handle(unset));
    acts := acts + [Handle(unset)];
    assert After(s0, acts).mailbox == [DropMsg(name, 0)];
    assert After(s0, acts).registry == map[];
    Extend(s0, acts, Handle(AllSucceed));
    acts := acts + [Handle(AllSucceed)];
  }

  // ---------------------------------------------------------------- The master

  /** The node has registered at the master exactly what its registry lists. */
  predicate Agrees(s: State) {
    s.kind != ClientKind ==>
      s.master.Keys == s.registry.Keys && forall n | n in s.registry :: s.master[n] == s.registry[n].guard
  }

  /** An entry goes without its name being unregistered: at the shutdown or a removal, because the master
      call fails; at a registration that finds it stale, because nothing new is registered instead and the
      old one is a service, or the call to unregister it fails. */
  predicate Diverges(s: State, a: Action) {
    && s.kind != ClientKind
    && (|| (a == Stop(false) && s.registry != map[])
        || (a.Handle? && s.mailbox != [] && LosesTrack(s, s.mailbox[0], a.outcomes)))
  }

  predicate LosesTrack(s: State, m: Msg, o: Outcomes) {
    && m.name in s.registry
    && if m.RegisterMsg? then
         && !Alive(s, s.registry[m.name].guard) && !(o.setup && o.register)
         && (s.kind == ServerKind || !o.cleanup)
       else !o.cleanup
  }

  lemma AgreesFresh(s: State, name: string, spec: Spec, o: Outcomes)
    requires Agrees(s)
    ensures Agrees(Fresh(s, name, spec, o))
  {
  }

  /** A stale entry is gone: from the master too, or the new endpoint is registered in its place. */
  lemma AgreesReplaced(s: State, name: string, spec: Spec, o: Outcomes)
    requires Agrees(s) && name in s.registry && s.kind != ClientKind
    ensures var s' := Fresh(RemoveStale(s, name, o.cleanup), name, spec, o);
            Agrees(s') <==> (o.setup && o.register) || (IsTopic(s.kind) && o.cleanup)
  {
    var s1, s' := RemoveStale(s, name, o.cleanup), Fresh(RemoveStale(s, name, o.cleanup), name, spec, o);
    assert name in s.master.Keys;
    if o.setup && o.register {
      assert s'.master.Keys == s.master.Keys + {name} == s'.registry.Keys;
    } else if IsTopic(s.kind) && o.cleanup {
      assert s'.master.Keys == s.master.Keys - {name} == s'.registry.Keys;
    } else {
      assert name in s'.master.Keys && name !in s'.registry.Keys;
    }
  }

  lemma AgreesRegister(s: State, name: string, spec: Spec, o: Outcomes)
    requires Agrees(s)
    ensures Agrees(Register(s, name, spec, o)) <==> s.kind == ClientKind || !LosesTrack(s, RegisterMsg(name, spec), o)
  {
    hide Compatible;
    if s.kind != ClientKind {
      if name !in s.registry {
        AgreesFresh(s, name, spec, o);
      } else if !Alive(s, s.registry[name].guard) {
        AgreesReplaced(s, name, spec, o);
      }
    }
  }

  lemma AgreesUnregister(s: State, name: string, ok: bool)
    requires Agrees(s)
    ensures Agrees(Unregister(s, name, ok)) <==> s.kind == ClientKind || name !in s.registry || ok
  {
    if s.kind != ClientKind && name in s.registry {
      var s' := Unregister(s, name, ok);
      assert name in s.master.Keys;
      if ok {
        assert s'.master.Keys == s'.registry.Keys;
      } else {
        assert name in s'.master.Keys && name !in s'.registry.Keys;
      }
    }
  }

  lemma AgreesStopped(s: State, ok: bool)
    requires Agrees(s)
    ensures Agrees(Stopped(s, ok)) <==> s.kind == ClientKind || ok || s.registry == map[]
    ensures s.kind != ClientKind ==> (Stopped(s, ok).master == map[] <==> ok || s.registry == map[])
  {
    if s.kind != ClientKind {
      var s' := Stopped(s, ok);
      if ok {
        assert forall n | n in s.master :: n in s.registry && MasterDrops(s, n, true);
      } else if s.registry == map[] {
        assert s.master.Keys == {};
        assert s.master == map[];
      } else {
        var n :| n in s.registry;
        assert n in s.master.Keys && !MasterDrops(s, n, false);
        assert n in s'.master.Keys;
      }
    }
  }

  /** Whatever fails: one step keeps registry and master in agreement exactly when no entry goes without
      its name being unregistered. */
  lemma AgreementExact(s: State, a: Action)
    requires Agrees(s) && Enabled(s, a)
    ensures Agrees(Apply(s, a)) <==> !Diverges(s, a)
  {
    hide Register, Unregister, Stopped;
    match a {
      case Handle(o) =>
        var s' := s.(mailbox := s.mailbox[1..]);
        match s.mailbox[0] {
          case RegisterMsg(name, spec) => AgreesRegister(s', name, spec, o);
          case UnregisterMsg(name) => AgreesUnregister(s', name, o.cleanup);
          case DropMsg(name, _) => AgreesUnregister(s', name, o.cleanup);
        }
      case Stop(ok) => AgreesStopped(s, ok);
      case Post(_) =>
      case CloneHandle(_) =>
      case DropHandle(_) =>
      case FinishDrop(_) =>
    }
  }

  /** A run without such a step. */
  predicate MasterRun(s: State, acts: seq<Action>)
    requires IsRun(s, acts)
    decreases |acts|
  {
    acts != [] ==> !Diverges(s, acts[0]) && MasterRun(Apply(s, acts[0]), acts[1..])
  }

  lemma {:induction false} RunAgrees(s: State, acts: seq<Action>)
    requires Agrees(s) && IsRun(s, acts) && MasterRun(s, acts)
    ensures Agrees(After(s, acts))
    decreases |acts|
  {
    hide Agrees, Apply, Enabled;
    if acts != [] {
      AgreementExact(s, acts[0]);
      RunAgrees(Apply(s, acts[0]), acts[1..]);
    }
  }

  /** After every run in which no entry goes without its name being unregistered, whatever else fails, the
      registry holds exactly the names this node has registered at the master. */
  lemma RegistryIsMaster(kind: Kind, acts: seq<Action>)
    requires kind != ClientKind && IsRun(Init(kind), acts) && MasterRun(Init(kind), acts)
    ensures After(Init(kind), acts).master.Keys == After(Init(kind), acts).registry.Keys
  {
    RunAgrees(Init(kind), acts);
    KindKept(Init(kind), acts);
  }

  /** In a safe run a stale entry is never met, so that only the calls to unregister have to succeed. */
  lemma {:induction false} SafeRunAgrees(s: State, acts: seq<Action>)
    requires Lifecycle(s) && IsRun(s, acts) && SafeRun(s, acts)
    requires forall k | 0 <= k < |acts| && acts[k].Handle? :: acts[k].outcomes.cleanup
    ensures MasterRun(s, acts)
    decreases |acts|
  {
    hide Lifecycle, Apply, Enabled, Undelivered;
    if acts != [] {
      if Diverges(s, acts[0]) {
        LiveOrAbsent(s, s.mailbox[0].name);
        assert false;
      }
      LifecycleStep(s, acts[0]);
      SafeRunAgrees(Apply(s, acts[0]), acts[1..]);
    }
  }

  lemma StartAgrees(kind: Kind)
    ensures Agrees(Init(kind)) && Inv(Init(kind))
  {
  }

  // ---------------------------------------------------------------- Shutdown

  /** `post_stop`, after any run whatever and whether or not its master calls succeed, empties the registry
      and disarms every publisher's, subscriber's or service's guard that still has handles, so that none of
      them ever posts a drop. If registry and master agreed, the master's record of this node is empty then
      exactly if the calls succeed or there was nothing registered. */
  lemma CleanShutdown(kind: Kind, acts: seq<Action>, ok: bool, g: nat)
    requires kind != ClientKind && IsRun(Init(kind), acts) && !After(Init(kind), acts).stopped
    ensures var s := After(Init(kind), acts);
            var s' := Apply(s, Stop(ok));
            && s'.registry == map[] && (Alive(s', g) ==> !s'.guards[g].armed)
            && (MasterRun(Init(kind), acts) ==> (s'.master == map[] <==> ok || s.registry == map[]))
  {
    hide RegistryOk, MailOk, Agrees, MasterDrops;
    StartAgrees(kind);
    RunInv(Init(kind), acts);
    KindKept(Init(kind), acts);
    if MasterRun(Init(kind), acts) {
      RunAgrees(Init(kind), acts);
      AgreesStopped(After(Init(kind), acts), ok);
    }
  }

  /** No client's guard is disarmed before the shutdown. */
  predicate ClientsArmed(s: State) {
    s.kind == ClientKind && (!s.stopped ==> forall g | 0 <= g < |s.guards| :: s.guards[g].armed)
  }

  lemma ClientsArmedStep(s: State, a: Action)
    requires ClientsArmed(s) && Enabled(s, a)
    ensures ClientsArmed(Apply(s, a))
  {
    hide Compatible, MasterWithout, MasterDrops;
  }

  lemma {:induction false} ClientsArmedFrom(s: State, acts: seq<Action>)
    requires ClientsArmed(s) && IsRun(s, acts)
    ensures ClientsArmed(After(s, acts))
    decreases |acts|
  {
    hide ClientsArmed, Apply, Enabled;
    if acts != [] {
      ClientsArmedStep(s, acts[0]);
      ClientsArmedFrom(Apply(s, acts[0]), acts[1..]);
    }
  }

  /** The service actor's clients have no master, and their entries are removed without disarming. After
      any run whatever `post_stop` empties the registry, and a client that still has handles is left armed,
      so that it will yet post a drop, exactly if a drop of its name was handled since it was made. */
  lemma ClientShutdown(acts: seq<Action>, ok: bool, g: nat)
    requires IsRun(Init(ClientKind), acts) && !After(Init(ClientKind), acts).stopped
    ensures var s' := Apply(After(Init(ClientKind), acts), Stop(ok));
            && s'.registry == map[]
            && (Alive(s', g) ==> (s'.guards[g].armed <==> DelistedIn(Init(ClientKind), acts, g)))
  {
    hide IsRun, After, DelistedIn, MasterDrops, Listed;
    var s := After(Init(ClientKind), acts);
    ClientsArmedFrom(Init(ClientKind), acts);
    if Alive(Apply(s, Stop(ok)), g) {
      ListedExact(ClientKind, acts, g);
    }
  }
}
