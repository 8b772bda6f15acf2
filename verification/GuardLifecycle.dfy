/** What handles, guards and the master can rely on in a registry, and exactly when. */
module GuardLifecycle {
  import opened Registry

  predicate Posted(s: State, g: nat) {
    exists i | 0 <= i < |s.mailbox| :: s.mailbox[i].DropMsg? && s.mailbox[i].from == g
  }

  /** The guard's drop is under way: its destructor has yet to run, or its message to be handled. */
  predicate Pending(s: State, g: nat) {
    g < |s.guards| && s.guards[g].armed && s.guards[g].handles == 0 && (s.guards[g].finished ==> Posted(s, g))
  }

  predicate Undelivered(s: State, name: string) {
    exists g | 0 <= g < |s.guards| :: s.guards[g].name == name && Pending(s, g)
  }

  /** No explicit unregistering and no shutdown; a service's master calls succeed; and no registration
      is handled while a drop for its name is undelivered. */
  predicate Safe(s: State, a: Action) {
    && !a.Stop? && (a.Post? ==> !a.msg.UnregisterMsg?)
    && (a.Handle? && s.mailbox != [] && s.mailbox[0].RegisterMsg? ==>
          !Undelivered(s, s.mailbox[0].name) && (s.kind == ServerKind ==> a.outcomes.register))
  }

  predicate SafeRun(s: State, acts: seq<Action>)
    requires IsRun(s, acts)
    decreases |acts|
  {
    acts != [] ==> Safe(s, acts[0]) && SafeRun(Apply(s, acts[0]), acts[1..])
  }

  // ---------------------------------------------------------------- Safe runs

  predicate HandlesListed(s: State) {
    forall g | 0 <= g < |s.guards| && Alive(s, g) :: s.guards[g].armed && Listed(s, g)
  }

  predicate DropsListed(s: State) {
    forall g | 0 <= g < |s.guards| && Pending(s, g) :: Listed(s, g)
  }

  predicate EntriesGuarded(s: State) {
    forall n | n in s.registry :: Alive(s, s.registry[n].guard) || Pending(s, s.registry[n].guard)
  }

  predicate Lifecycle(s: State) {
    && Inv(s) && HandlesListed(s) && DropsListed(s) && EntriesGuarded(s)
    && (forall i | 0 <= i < |s.mailbox| :: !s.mailbox[i].UnregisterMsg?)
  }

  /** A live guard's handles come and go. */
  lemma LifecycleCount(s: State, g: nat, handles: nat)
    requires Lifecycle(s) && Alive(s, g)
    ensures Lifecycle(Adjusted(s, g, s.guards[g].(handles := handles)))
  {
    hide Posted, MailOk;
    var s' := Adjusted(s, g, s.guards[g].(handles := handles));
    assert Listed(s, g) && !s.guards[g].finished;
    InvAdjusted(s, g, s.guards[g].(handles := handles));
    forall k | 0 <= k < |s.guards| ensures k != g ==> Pending(s', k) == Pending(s, k) && Alive(s', k) == Alive(s, k) {
      if k != g {
        PostedSame(s, s', k);
      }
    }
  }

  lemma PostedSame(s: State, s': State, g: nat)
    requires s'.mailbox == s.mailbox
    ensures Posted(s', g) == Posted(s, g)
  {
  }

  lemma PostedMore(s: State, s': State, m: Msg, g: nat)
    requires s'.mailbox == s.mailbox + [m]
    ensures Posted(s', g) <==> Posted(s, g) || (m.DropMsg? && m.from == g)
  {
    if Posted(s, g) {
      var i :| 0 <= i < |s.mailbox| && s.mailbox[i].DropMsg? && s.mailbox[i].from == g;
      assert s'.mailbox[i] == s.mailbox[i];
    }
    if m.DropMsg? && m.from == g {
      assert s'.mailbox[|s.mailbox|] == m;
    }
  }

  /** Taking a message off the mailbox unposts exactly the drop it is. */
  lemma PostedLess(s: State, s': State, g: nat)
    requires MailOk(s.guards, s.mailbox) && s.mailbox != [] && s'.mailbox == s.mailbox[1..]
    ensures Posted(s', g) <==> Posted(s, g) && !(s.mailbox[0].DropMsg? && s.mailbox[0].from == g)
  {
    if Posted(s, g) && !(s.mailbox[0].DropMsg? && s.mailbox[0].from == g) {
      var i :| 0 <= i < |s.mailbox| && s.mailbox[i].DropMsg? && s.mailbox[i].from == g;
      assert s'.mailbox[i - 1] == s.mailbox[i];
    }
    if Posted(s', g) {
      var i :| 0 <= i < |s'.mailbox| && s'.mailbox[i].DropMsg? && s'.mailbox[i].from == g;
      assert s.mailbox[i + 1] == s'.mailbox[i];
    }
  }

  lemma LifecyclePost(s: State, m: Msg)
    requires Lifecycle(s) && m.RegisterMsg?
    ensures Lifecycle(s.(mailbox := s.mailbox + [m]))
  {
    hide Posted, MailOk;
    var s' := s.(mailbox := s.mailbox + [m]);
    InvMail(s, m);
    forall g | 0 <= g < |s.guards| ensures Pending(s', g) == Pending(s, g) {
      PostedMore(s, s', m, g);
    }
  }

  lemma LifecycleFinish(s: State, g: nat)
    requires Lifecycle(s) && Enabled(s, FinishDrop(g))
    ensures Lifecycle(Apply(s, FinishDrop(g)))
  {
    hide Posted, MailOk;
    var s' := Apply(s, FinishDrop(g));
    InvStep(s, FinishDrop(g));
    forall k | 0 <= k < |s.guards| ensures Pending(s', k) == Pending(s, k) && Alive(s', k) == Alive(s, k) {
      if s.guards[g].armed {
        PostedMore(s, s', DropMsg(s.guards[g].name, g), k);
      } else {
        PostedSame(s, s', k);
      }
    }
  }

  /** A handled drop finds its own guard's entry, and removes it. */
  lemma LifecycleDrop(s: State, o: Outcomes)
    requires Lifecycle(s) && Enabled(s, Handle(o)) && s.mailbox[0].DropMsg?
    ensures Lifecycle(Apply(s, Handle(o)))
  {
    hide Posted, MailOk, MasterWithout, Fresh;
    var s', from, name := Apply(s, Handle(o)), s.mailbox[0].from, s.mailbox[0].name;
    InvStep(s, Handle(o));
    HeadDrop(s);
    assert Pending(s, from) && Listed(s, from);
    assert s'.guards == s.guards && s'.registry == s.registry - {name};
    forall g | 0 <= g < |s.guards| ensures Pending(s', g) <==> Pending(s, g) && g != from {
      PostedLess(s, s', g);
    }
    forall i | 0 <= i < |s'.mailbox| ensures !s'.mailbox[i].UnregisterMsg? {
      assert s'.mailbox[i] == s.mailbox[i + 1];
    }
    assert forall g | 0 <= g < |s.guards| && Listed(s, g) && g != from :: Listed(s', g);
    assert forall n | n in s'.registry :: s'.registry[n].guard != from;
  }

  lemma HeadDrop(s: State)
    requires MailOk(s.guards, s.mailbox) && RegistryOk(s) && s.mailbox != [] && s.mailbox[0].DropMsg?
    ensures Pending(s, s.mailbox[0].from) && s.guards[s.mailbox[0].from].name == s.mailbox[0].name
    ensures s.guards[s.mailbox[0].from].finished
  {
    assert Posted(s, s.mailbox[0].from);
  }

  lemma TakenUp(s: State)
    requires Lifecycle(s) && s.mailbox != [] && !s.mailbox[0].DropMsg?
    ensures Lifecycle(s.(mailbox := s.mailbox[1..]))
    ensures forall name :: Undelivered(s.(mailbox := s.mailbox[1..]), name) == Undelivered(s, name)
  {
    hide Posted, MailOk;
    var s' := s.(mailbox := s.mailbox[1..]);
    InvMail(s, RegisterMsg("", Spec("", "", "")));
    forall g | 0 <= g < |s.guards| ensures Pending(s', g) == Pending(s, g) {
      PostedLess(s, s', g);
    }
    forall i | 0 <= i < |s'.mailbox| ensures !s'.mailbox[i].UnregisterMsg? {
      assert s'.mailbox[i] == s.mailbox[i + 1];
    }
  }

  /** With no drop undelivered there is a live guard or no entry. */
  lemma LiveOrAbsent(s: State, name: string)
    requires Lifecycle(s) && !Undelivered(s, name)
    ensures name in s.registry ==> Alive(s, s.registry[name].guard)
  {
    hide MailOk, Posted;
    if name in s.registry {
      assert s.guards[s.registry[name].guard].name == name;
      assert !Pending(s, s.registry[name].guard);
    }
  }

  lemma LifecycleFresh(s: State, name: string, spec: Spec, o: Outcomes)
    requires Lifecycle(s) && name !in s.registry && (s.kind == ServerKind ==> o.register)
    ensures Lifecycle(Fresh(s, name, spec, o))
  {
    hide Posted, Inv;
    var s' := Fresh(s, name, spec, o);
    InvFresh(s, name, spec, o);
    forall g | 0 <= g < |s.guards| ensures Pending(s', g) == Pending(s, g) && Alive(s', g) == Alive(s, g) {
      PostedSame(s, s', g);
    }
    assert forall g | 0 <= g < |s.guards| && Listed(s, g) :: Listed(s', g);
  }

  lemma LifecycleRegister(s: State, name: string, spec: Spec, o: Outcomes)
    requires Lifecycle(s) && !Undelivered(s, name) && (s.kind == ServerKind ==> o.register)
    ensures Lifecycle(Register(s, name, spec, o))
  {
    hide Compatible, Undelivered, Fresh, Lifecycle;
    LiveOrAbsent(s, name);
    if name in s.registry {
      LifecycleCount(s, s.registry[name].guard, s.guards[s.registry[name].guard].handles + 1);
    } else {
      LifecycleFresh(s, name, spec, o);
    }
  }

  lemma LifecycleStep(s: State, a: Action)
    requires Lifecycle(s) && Enabled(s, a) && Safe(s, a)
    ensures Lifecycle(Apply(s, a))
  {
    hide HandlesListed, DropsListed, EntriesGuarded, Inv, Undelivered, Register;
    match a
    case Post(m) => LifecyclePost(s, m);
    case CloneHandle(g) => LifecycleCount(s, g, s.guards[g].handles + 1);
    case DropHandle(g) => LifecycleCount(s, g, s.guards[g].handles - 1);
    case FinishDrop(g) => LifecycleFinish(s, g);
    case Handle(o) =>
      if s.mailbox[0].DropMsg? {
        LifecycleDrop(s, o);
      } else {
        TakenUp(s);
        LifecycleRegister(s.(mailbox := s.mailbox[1..]), s.mailbox[0].name, s.mailbox[0].spec, o);
      }
  }

  lemma {:induction false} RunLifecycle(s: State, acts: seq<Action>)
    requires Lifecycle(s) && IsRun(s, acts) && SafeRun(s, acts)
    ensures Lifecycle(After(s, acts))
    decreases |acts|
  {
    hide Lifecycle, Apply, Enabled, Safe;
    if acts != [] {
      LifecycleStep(s, acts[0]);
      RunLifecycle(Apply(s, acts[0]), acts[1..]);
    }
  }

  /** In every safe run: a live handle's guard is armed and the registry's entry points to it; an entry
      without a live handle has exactly one drop under way, its own guard's, posted at most once; and
      where there is no entry nothing is under way. */
  lemma Lifecycles(kind: Kind, acts: seq<Action>, g: nat, name: string)
    requires IsRun(Init(kind), acts) && SafeRun(Init(kind), acts)
    ensures var s := After(Init(kind), acts);
            && (Alive(s, g) ==> s.guards[g].armed && Listed(s, g))
            && (name in s.registry && !Alive(s, s.registry[name].guard) ==>
                  && Pending(s, s.registry[name].guard)
                  && forall k | 0 <= k < |s.guards| && s.guards[k].name == name && Pending(s, k) ::
                       k == s.registry[name].guard)
            && (name in s.registry && Alive(s, s.registry[name].guard) ==> !Undelivered(s, name))
            && (name !in s.registry ==> !Undelivered(s, name))
            && (forall i, j | 0 <= i < j < |s.mailbox| && s.mailbox[i].DropMsg? && s.mailbox[j].DropMsg? ::
                  s.mailbox[i].from != s.mailbox[j].from)
  {
    hide Posted, RegistryOk;
    StartLifecycle(kind);
    RunLifecycle(Init(kind), acts);
    var s := After(Init(kind), acts);
    assert InRange(s) by { InvParts(s); Ranges(s); }
    assert forall k | 0 <= k < |s.guards| && s.guards[k].name == name && Pending(s, k) :: Listed(s, k);
  }

  lemma StartLifecycle(kind: Kind)
    ensures Lifecycle(Init(kind))
  {
  }

  predicate InRange(s: State) {
    forall n | n in s.registry :: s.registry[n].guard < |s.guards|
  }

  lemma Ranges(s: State)
    requires RegistryOk(s)
    ensures InRange(s)
  {
  }

  // ---------------------------------------------------------------- Every run

  /** In every run whatever: an armed guard with a handle is the registry's (for clients only in safe
      runs), and a drop in the mailbox was posted by an armed guard, whose last handle is gone, once. */
  lemma ArmedGuardsAreListed(kind: Kind, acts: seq<Action>, g: nat)
    requires IsRun(Init(kind), acts)
    ensures var s := After(Init(kind), acts);
            && (kind != ClientKind && Alive(s, g) && s.guards[g].armed ==> Listed(s, g))
            && (Posted(s, g) ==> g < |s.guards| && s.guards[g].armed && s.guards[g].handles == 0 && s.guards[g].finished)
            && (forall i, j | 0 <= i < j < |s.mailbox| && s.mailbox[i].DropMsg? && s.mailbox[j].DropMsg? ::
                  s.mailbox[i].from != s.mailbox[j].from)
  {
    RunInv(Init(kind), acts);
    KindKept(Init(kind), acts);
  }

  lemma {:induction false} KindKept(s: State, acts: seq<Action>)
    requires IsRun(s, acts)
    ensures After(s, acts).kind == s.kind && |After(s, acts).guards| >= |s.guards|
    decreases |acts|
  {
    hide Enabled, Apply;
    if acts != [] {
      KindStep(s, acts[0]);
      KindKept(Apply(s, acts[0]), acts[1..]);
    }
  }

  lemma KindStep(s: State, a: Action)
    requires Enabled(s, a)
    ensures Apply(s, a).kind == s.kind && |Apply(s, a).guards| >= |s.guards|
  {
    hide Compatible, MasterWithout, MasterDrops;
  }

  /** A guard once disarmed stays so and never posts a drop. */
  lemma {:induction false} DisarmedIsSilent(s: State, acts: seq<Action>, g: nat)
    requires Inv(s) && IsRun(s, acts) && g < |s.guards| && !s.guards[g].armed
    ensures var s' := After(s, acts); g < |s'.guards| && !s'.guards[g].armed && !Posted(s', g)
    decreases |acts|
  {
    hide Apply, Enabled;
    if acts != [] {
      InvStep(s, acts[0]);
      StaysDisarmed(s, acts[0], g);
      DisarmedIsSilent(Apply(s, acts[0]), acts[1..], g);
    }
  }

  lemma StaysDisarmed(s: State, a: Action, g: nat)
    requires Enabled(s, a) && g < |s.guards| && !s.guards[g].armed
    ensures g < |Apply(s, a).guards| && !Apply(s, a).guards[g].armed
  {
    hide MasterWithout, MasterDrops, Compatible;
  }
}
