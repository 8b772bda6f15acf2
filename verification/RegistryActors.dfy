/** The registries' handlers as code, over guards shared by reference. Each handler is proved to do what
    `Registry` says of it. A handler's calls out of the actor succeed as its `Outcomes` say. */
module RegistryActors {
  import opened Wrappers
  import opened Registry

  /** A guard behind its reference count. */
  class SharedGuard {
    const id: nat
    const name: string
    var armed: bool
    var handles: nat
    var finished: bool

    constructor (id: nat, name: string)
      ensures this.id == id && this.name == name && armed && handles == 1 && !finished
    {
      this.id, this.name, armed, handles, finished := id, name, true, 1, false;
    }

    ghost function View(): Guard
      reads this
    {
      Guard(name, armed, handles, finished)
    }

    /** `Weak::upgrade`. */
    method Upgrade() returns (ok: bool)
      modifies this`handles
      ensures ok == (old(handles) > 0) && handles == old(handles) + (if ok then 1 else 0)
    {
      ok := handles > 0;
      if ok {
        handles := handles + 1;
      }
    }

    /** A reference goes away. */
    method Release()
      requires handles > 0
      modifies this`handles
      ensures handles == old(handles) - 1
    {
      handles := handles - 1;
    }

    method Disarm()
      modifies this`armed
      ensures !armed
    {
      armed := false;
    }

    /** The destructor: the message it posts. */
    method Drop() returns (posted: Option<Msg>)
      requires handles == 0 && !finished
      modifies this`finished
      ensures finished && posted == if armed then Some(DropMsg(name, id)) else None
    {
      finished := true;
      posted := if armed then Some(DropMsg(name, id)) else None;
    }
  }

  datatype Listing = Listing(guard: SharedGuard, spec: Spec)

  /** The master, as far as this node's registrations go. */
  class MasterClient {
    var registered: map<string, nat>

    method Register(name: string, g: nat, ok: bool)
      modifies this
      ensures registered == if ok then old(registered)[name := g] else old(registered)
    {
      if ok {
        registered := registered[name := g];
      }
    }

    method Unregister(name: string, ok: bool)
      modifies this
      ensures registered == if ok then old(registered) - {name} else old(registered)
    {
      if ok {
        registered := registered - {name};
      }
    }

    /** A service is unregistered with the URL it was registered with. */
    method UnregisterService(name: string, g: nat, ok: bool)
      modifies this
      ensures registered == if ok && name in old(registered) && old(registered)[name] == g then old(registered) - {name}
                            else old(registered)
    {
      if ok && name in registered && registered[name] == g {
        registered := registered - {name};
      }
    }
  }

  lemma RemovedStale(s: State, name: string, ok: bool)
    requires name in s.registry
    ensures RemoveStale(s, name, ok).kind == s.kind && RemoveStale(s, name, ok).guards == s.guards
  {
    hide MasterWithout;
  }

  /** Every guard an actor has made, in order. */
  predicate Numbered(guards: seq<SharedGuard>) {
    forall i | 0 <= i < |guards| :: guards[i].id == i
  }

  ghost function Views(guards: seq<SharedGuard>): seq<Guard>
    reads guards
  {
    seq(|guards|, i requires 0 <= i < |guards| reads guards => guards[i].View())
  }

  function Entries(listed: map<string, Listing>): map<string, Entry> {
    map n | n in listed :: Entry(listed[n].guard.id, listed[n].spec)
  }

  lemma EntriesWith(listed: map<string, Listing>, name: string, l: Listing)
    ensures Entries(listed[name := l]) == Entries(listed)[name := Entry(l.guard.id, l.spec)]
  {
  }

  lemma EntriesWithout(listed: map<string, Listing>, name: string)
    ensures Entries(listed - {name}) == Entries(listed) - {name}
  {
  }

  lemma EntriesOfNone()
    ensures Entries(map[]) == map[]
  {
  }

  lemma KeysOf(listed: map<string, Listing>)
    ensures Entries(listed).Keys == listed.Keys
  {
  }

  lemma EntryOf(listed: map<string, Listing>, name: string)
    ensures name in Entries(listed) <==> name in listed
    ensures name in listed ==> Entries(listed)[name] == Entry(listed[name].guard.id, listed[name].spec)
  {
  }

  lemma ViewsSnoc(guards: seq<SharedGuard>, guard: SharedGuard)
    ensures Views(guards + [guard]) == Views(guards) + [guard.View()]
  {
  }

  lemma ViewOf(guards: seq<SharedGuard>, guard: SharedGuard)
    requires Numbered(guards) && guard in guards
    ensures guard.id < |guards| == |Views(guards)| && Views(guards)[guard.id] == guard.View()
  {
  }

  /** A new guard that is dropped at once. */
  lemma DroppedGuard(guards: seq<SharedGuard>, before: seq<Guard>, guard: SharedGuard)
    requires |before| == |guards| && forall i | 0 <= i < |guards| :: guards[i].View() == before[i]
    ensures Views(guards + [guard]) == before + [guard.View()]
  {
  }

  lemma ViewsAt(guards: seq<SharedGuard>)
    ensures |Views(guards)| == |guards|
    ensures forall i | 0 <= i < |guards| :: Views(guards)[i] == guards[i].View()
  {
  }

  /** Only one guard has changed. */
  lemma ViewsUpdated(guards: seq<SharedGuard>, guard: SharedGuard, before: seq<Guard>)
    requires Numbered(guards) && guard in guards && |before| == |guards|
    requires forall i | 0 <= i < |guards| && guards[i] != guard :: guards[i].View() == before[i]
    ensures Views(guards) == before[guard.id := guard.View()]
  {
  }

  /** One registry of an actor: a publisher actor's publications, a subscriber actor's subscriptions, a
      service actor's servers or its clients. The four sets of handlers differ where `kind` is asked. */
  class Registrar {
    const kind: Kind
    const masterClient: MasterClient
    var entries: map<string, Listing>
    var guards: seq<SharedGuard>   // every guard made, to number them by

    ghost predicate Valid()
      reads this
    {
      && Numbered(guards)
      && forall n | n in entries :: entries[n].guard in guards && entries[n].guard.name == n
    }

    ghost function View(): State
      reads this, masterClient, guards
    {
      State(kind, Entries(entries), Views(guards), [], masterClient.registered, false)
    }

    constructor (kind: Kind, masterClient: MasterClient)
      requires masterClient.registered == map[]
      ensures Valid() && this.kind == kind && this.masterClient == masterClient
      ensures View() == Init(kind)
    {
      this.kind, this.masterClient, entries, guards := kind, masterClient, map[], [];
    }

    /** `cleanup_publication`, `cleanup_subscription` and `cleanup_server`; what `post_stop` does for a client. */
    method Cleanup(name: string, guard: SharedGuard, ok: bool)
      requires Valid() && guard in guards && guard.name == name
      modifies masterClient, guard
      ensures Valid()
      ensures View() == Disarmed(old(View()), guard.id).(master := MasterWithout(old(View()), name, guard.id, ok))
    {
      hide Entries, Views;
      ghost var before := Views(guards);
      ViewsAt(guards);
      ViewOf(guards, guard);
      var upgraded := guard.Upgrade();
      if upgraded {
        guard.Disarm();
        guard.Release();
      }
      ViewsUpdated(guards, guard, before);
      if IsTopic(kind) {
        masterClient.Unregister(name, ok);
      } else if kind == ServerKind {
        masterClient.UnregisterService(name, guard.id, ok);
      }
    }

    /** The entry's guard, if it can be shared; a stale entry is removed, and cleaned up if it is a topic's. */
    method Share(name: string, spec: Spec, o: Outcomes) returns (shared: Option<SharedGuard>)
      requires Valid() && name in entries
      modifies this`entries, masterClient, guards
      ensures Valid()
      ensures var s, e := old(View()), old(entries[name]);
              View() == if Alive(s, e.guard.id) then Register(s, name, spec, o) else RemoveStale(s, name, o.cleanup)
      ensures shared.Some? ==> name in entries && shared.value == entries[name].guard && shared.value.handles > 0
      ensures shared.Some? <==> old(entries[name].guard.handles) > 0 && Compatible(kind, spec, old(entries[name].spec))
      ensures name in entries <==> old(entries[name].guard.handles) > 0
    {
      hide Fresh, Compatible, Entries, Views;
      var listing := entries[name];
      ghost var before := Views(guards);
      EntryOf(entries, name);
      ViewsAt(guards);
      ViewOf(guards, listing.guard);
      var upgraded := listing.guard.Upgrade();
      if upgraded {
        if !Compatible(kind, spec, listing.spec) {
          listing.guard.Release();
          ViewsUpdated(guards, listing.guard, before);
          return None;
        }
        ViewsUpdated(guards, listing.guard, before);
        return Some(listing.guard);
      }
      ViewsUpdated(guards, listing.guard, before);
      EntriesWithout(entries, name);
      entries := entries - {name};
      if IsTopic(kind) {
        Cleanup(name, listing.guard, o.cleanup);
      }
      return None;
    }

    /** A guard for the next endpoint. */
    method NewGuard(name: string) returns (guard: SharedGuard)
      requires Valid()
      modifies this`guards
      ensures Valid() && fresh(guard) && guard in guards && guard.name == name
      ensures guard.View() == Guard(name, true, 1, false) && guard.id == |old(guards)|
      ensures guards == old(guards) + [guard]
      ensures Views(guards) == old(Views(guards)) + [guard.View()]
    {
      hide Entries, Views;
      guard := new SharedGuard(|guards|, name);
      ViewsSnoc(guards, guard);
      guards := guards + [guard];
    }

    /** A new service: its guard is made before the master is called, and dropped if that fails. */
    method SetUpServer(name: string, spec: Spec, o: Outcomes) returns (handle: Option<SharedGuard>)
      requires Valid() && name !in entries && kind == ServerKind && o.setup
      modifies this, masterClient
      ensures Valid()
      ensures View() == Fresh(old(View()), name, spec, o)
      ensures handle.Some? ==> name in entries && handle.value == entries[name].guard && handle.value.handles > 0
      ensures handle.Some? <==> Grants(old(View()), name, spec, o)
    {
      hide Entries, Views;
      ghost var before := Views(guards);
      ViewsAt(guards);
      EntryOf(entries, name);
      var guard := NewGuard(name);
      masterClient.Register(name, guard.id, o.register);
      if !o.register {
        guard.Release();
        DroppedGuard(old(guards), before, guard);
        return None;
      }
      EntriesWith(entries, name, Listing(guard, spec));
      entries := entries[name := Listing(guard, spec)];
      return Some(guard);
    }

    /** A new endpoint. */
    method SetUp(name: string, spec: Spec, o: Outcomes) returns (handle: Option<SharedGuard>)
      requires Valid() && name !in entries
      modifies this, masterClient
      ensures Valid()
      ensures View() == Fresh(old(View()), name, spec, o)
      ensures handle.Some? ==> name in entries && handle.value == entries[name].guard && handle.value.handles > 0
      ensures handle.Some? <==> Grants(old(View()), name, spec, o)
    {
      hide Entries, Views;
      ViewsAt(guards);
      EntryOf(entries, name);
      if !o.setup {
        return None;
      }
      if kind == ServerKind {
        handle := SetUpServer(name, spec, o);
        return;
      }
      if kind != ClientKind {
        masterClient.Register(name, |guards|, o.register);
        if !o.register {
          return None;
        }
      }
      var guard := NewGuard(name);
      EntriesWith(entries, name, Listing(guard, spec));
      entries := entries[name := Listing(guard, spec)];
      return Some(guard);
    }

    /** `register_publisher`, `register_subscriber`, `register_service` and `register_client`: the guard
        the new handle shares. */
    method RegisterName(name: string, spec: Spec, o: Outcomes) returns (handle: Option<SharedGuard>)
      requires Valid()
      modifies this, masterClient, guards
      ensures Valid()
      ensures View() == Register(old(View()), name, spec, o)
      ensures handle.Some? ==> name in entries && handle.value == entries[name].guard && handle.value.handles > 0
      ensures handle.Some? <==> Grants(old(View()), name, spec, o)
      ensures handle.Some? ==>
                var g, before := handle.value.id, old(View()).guards;
                g < |View().guards| && View().guards[g].handles == 1 + (if g < |before| then before[g].handles else 0)
    {
      hide Fresh, Compatible, RemoveStale, Entries, Views;
      EntryOf(entries, name);
      GrantsExact(View(), name, spec, o);
      if name in entries {
        ViewOf(guards, entries[name].guard);
        handle := Share(name, spec, o);
        EntryOf(entries, name);
        if name in entries {
          return handle;
        }
        RemovedStale(old(View()), name, o.cleanup);
      }
      handle := SetUp(name, spec, o);
      EntryOf(entries, name);
    }

    /** `unregister_publisher`, `unregister_subscriber`, `unregister_service` and `unregister_client`. */
    method UnregisterName(name: string, ok: bool)
      requires Valid()
      modifies this, masterClient, guards
      ensures Valid()
      ensures View() == Unregister(old(View()), name, ok)
    {
      hide Entries, Views;
      EntryOf(entries, name);
      if name in entries {
        var listing := entries[name];
        EntriesWithout(entries, name);
        entries := entries - {name};
        if kind != ClientKind {
          Cleanup(name, listing.guard, ok);
        }
      }
    }

    /** A user's handle goes away. */
    method ReleaseHandle(guard: SharedGuard)
      requires Valid() && guard in guards && guard.handles > 0 && !guard.finished
      modifies guard
      ensures Valid() && Enabled(old(View()), DropHandle(guard.id))
      ensures View() == Apply(old(View()), DropHandle(guard.id))
    {
      hide Entries, Views;
      ghost var before := Views(guards);
      ViewsAt(guards);
      ViewOf(guards, guard);
      guard.Release();
      ViewsUpdated(guards, guard, before);
    }

    /** The destructor of a guard whose last handle has gone, and what it puts in the mailbox. */
    method RunDestructor(guard: SharedGuard) returns (posted: Option<Msg>)
      requires Valid() && guard in guards && guard.handles == 0 && !guard.finished
      modifies guard
      ensures Valid() && Enabled(old(View()), FinishDrop(guard.id))
      ensures View().(mailbox := if posted.Some? then [posted.value] else []) == Apply(old(View()), FinishDrop(guard.id))
    {
      hide Entries, Views;
      ghost var before := Views(guards);
      ViewsAt(guards);
      ViewOf(guards, guard);
      posted := guard.Drop();
      ViewsUpdated(guards, guard, before);
    }

    /** One turn of `post_stop`'s loop. */
    method CleanupTaken(name: string, guard: SharedGuard, ok: bool, ghost s: State, ghost gone: set<string>)
      requires Valid() && guard in guards && guard.name == name && entries == map[]
      requires View() == StoppedPart(s, gone, ok)
      requires name !in gone && NamedGuard(s, name) && s.registry[name].guard == guard.id
      modifies masterClient, guard
      ensures Valid() && View() == StoppedPart(s, gone + {name}, ok)
    {
      hide StoppedPart, Disarmed, MasterWithout, Entries, Views;
      StoppedNext(s, gone, name, ok);
      Cleanup(name, guard, ok);
    }

    /** `post_stop`'s loop. */
    method CleanupAll(listed: map<string, Listing>, ok: bool, ghost s: State)
      requires Valid() && entries == map[] && View() == StoppedPart(s, {}, ok)
      requires forall n | n in listed :: listed[n].guard in guards && listed[n].guard.name == n
      requires forall n | n in listed :: NamedGuard(s, n) && s.registry[n].guard == listed[n].guard.id
      modifies masterClient, guards
      ensures Valid() && View() == StoppedPart(s, listed.Keys, ok)
    {
      hide StoppedPart, Entries, Views, NamedGuard, Left;
      ghost var gone := {};
      var taken := listed;
      LeftAll(listed);
      while taken != map[]
        invariant Valid() && Left(taken, listed, gone)
        invariant View() == StoppedPart(s, gone, ok)
        decreases |taken|
      {
        var name :| name in taken;
        LeftNext(taken, listed, gone, name);
        CleanupTaken(name, taken[name].guard, ok, s, gone);
        taken := taken - {name};
        gone := gone + {name};
      }
      LeftNone(listed, gone);
    }

    /** `post_stop`. */
    method PostStop(ok: bool)
      requires Valid()
      modifies this`entries, masterClient, guards
      ensures Valid() && entries == map[]
      ensures View().(stopped := true) == Stopped(old(View()), ok)
    {
      hide StoppedPart, Stopped, Entries, Views, NamedGuard;
      ghost var s := View();
      var listed := entries;
      ListedGuards(guards, s, listed);
      EntriesOfNone();
      StoppedNone(s, ok);
      entries := map[];
      CleanupAll(listed, ok, s);
      KeysOf(listed);
      StoppedWhole(s, listed.Keys, ok);
    }
  }

  /** The entries `post_stop` has yet to clean up. */
  ghost predicate Left(taken: map<string, Listing>, listed: map<string, Listing>, gone: set<string>) {
    && taken.Keys == listed.Keys - gone && gone <= listed.Keys
    && forall n | n in taken :: taken[n] == listed[n]
  }

  lemma LeftAll(listed: map<string, Listing>)
    ensures Left(listed, listed, {})
  {
  }

  lemma LeftNext(taken: map<string, Listing>, listed: map<string, Listing>, gone: set<string>, name: string)
    requires Left(taken, listed, gone) && name in taken
    ensures name in listed && taken[name] == listed[name] && name !in gone
    ensures Left(taken - {name}, listed, gone + {name})
    ensures |taken - {name}| < |taken|
  {
    var rest := taken - {name};
    assert taken.Keys == rest.Keys + {name};
    assert |taken.Keys| == |rest.Keys| + 1;
  }

  lemma LeftNone(listed: map<string, Listing>, gone: set<string>)
    requires Left(map[], listed, gone)
    ensures gone == listed.Keys
  {
    var none: map<string, Listing> := map[];
    assert listed.Keys - gone == none.Keys == {};
  }

  lemma ListedGuards(guards: seq<SharedGuard>, s: State, listed: map<string, Listing>)
    requires Numbered(guards) && s.guards == Views(guards) && s.registry == Entries(listed)
    requires forall n | n in listed :: listed[n].guard in guards && listed[n].guard.name == n
    ensures forall n | n in listed :: NamedGuard(s, n) && s.registry[n].guard == listed[n].guard.id
  {
  }

  /** `post_stop` once the given names were cleaned up. */
  function StoppedPart(s: State, gone: set<string>, ok: bool): State {
    s.(registry := map[],
       guards := seq(|s.guards|, g requires 0 <= g < |s.guards| =>
         if Alive(s, g) && Listed(s, g) && s.guards[g].name in gone then s.guards[g].(armed := false) else s.guards[g]),
       master := map n | n in s.master && !(n in gone && n in s.registry && MasterDrops(s, n, ok)) :: s.master[n])
  }

  predicate NamedGuard(s: State, name: string) {
    name in s.registry && s.registry[name].guard < |s.guards| && s.guards[s.registry[name].guard].name == name
  }

  lemma StoppedNone(s: State, ok: bool)
    ensures StoppedPart(s, {}, ok) == s.(registry := map[])
  {
    hide MasterDrops;
  }

  lemma StoppedWhole(s: State, gone: set<string>, ok: bool)
    requires gone == s.registry.Keys
    ensures StoppedPart(s, gone, ok).(stopped := true) == Stopped(s, ok)
  {
    hide MasterDrops;
    assert forall g | 0 <= g < |s.guards| && Listed(s, g) :: s.guards[g].name in gone;
  }

  lemma StoppedNext(s: State, gone: set<string>, name: string, ok: bool)
    requires name !in gone && NamedGuard(s, name)
    ensures var s1, g := StoppedPart(s, gone, ok), s.registry[name].guard;
            Disarmed(s1, g).(master := MasterWithout(s1, name, g, ok)) == StoppedPart(s, gone + {name}, ok)
  {
    var s1, g := StoppedPart(s, gone, ok), s.registry[name].guard;
    var a, b := Disarmed(s1, g).(master := MasterWithout(s1, name, g, ok)), StoppedPart(s, gone + {name}, ok);
    assert forall k | 0 <= k < |s.guards| && Listed(s, k) && s.guards[k].name == name :: k == g;
    assert a.guards == b.guards;
    assert name in s1.master <==> name in s.master;
    assert a.master == b.master;
  }
}
