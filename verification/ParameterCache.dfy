/** The parameter cache as a state machine: the parameter server, the notifications it has sent this
    node and the node has not handled, and the parameter actor, whose handlers are cut at every call
    to the server. Other nodes write to the server at any time, and any call may fail; a failing call
    that ends a handler with nothing changed (`subscribe_param`, `set_param`) is no step. */
module ParameterCache {
  import opened Wrappers

  datatype Value = EmptyStruct | Data(text: string)

  datatype Note = Note(name: string, value: Value)

  /** What the actor is in the middle of; the server calls made so far have succeeded. */
  datatype Actor =
    | Idle
    | Reading(name: string)                       // get_cached_param, subscribed
    | Fetched(name: string, param: Option<Value>) // get_cached_param, after get_param
    | Wrote(name: string, value: Value)           // set_param, after the server's set_param
    | Unsubscribed(name: string)                  // delete_param, after unsubscribe_param
    | Deleted(name: string)                       // delete_param, after the server's delete_param
    | Checking(name: string)                      // update_cached_param with an empty struct
    | Checked(name: string, present: bool)         // ... after has_param

  datatype State = State(
    notifySelf: bool,              // whether the server notifies a node of its own writes and deletions
    server: map<string, Value>,
    watching: set<string>,         // the names the server notifies this node about
    inFlight: seq<Note>,
    subscribed: set<string>,       // `subscribed_params`
    cache: map<string, Value>,     // `param_cache`
    actor: Actor
  )

  datatype Action =
    | RemoteSet(name: string, value: Value)
    | RemoteDelete(name: string)
    | StartGet(name: string)
    | UseCache
    | Fetch
    | FetchFails
    | Fill
    | StartSet(name: string, value: Value)
    | StoreSet
    | StartDelete(name: string)
    | UnsubscribeFails(name: string)
    | DeleteOnServer
    | DeleteFails
    | DropCached
    | HandleNote
    | CheckExists
    | CheckFails
    | FinishCheck

  function Init(notifySelf: bool, server: map<string, Value>): State {
    State(notifySelf, server, {}, [], {}, map[], Idle)
  }

  function Get(m: map<string, Value>, name: string): Option<Value> {
    if name in m then Some(m[name]) else None
  }

  predicate Enabled(s: State, a: Action) {
    match a
    case RemoteSet(_, _) => true
    case RemoteDelete(name) => name in s.server
    case StartGet(_) => s.actor == Idle
    case UseCache => s.actor.Reading? && s.actor.name in s.cache
    case Fetch => s.actor.Reading? && s.actor.name !in s.cache
    case FetchFails => s.actor.Reading? && s.actor.name !in s.cache
    case Fill => s.actor.Fetched?
    case StartSet(_, _) => s.actor == Idle
    case StoreSet => s.actor.Wrote?
    case StartDelete(_) => s.actor == Idle
    case UnsubscribeFails(name) => s.actor == Idle && name in s.subscribed
    case DeleteOnServer => s.actor.Unsubscribed?
    case DeleteFails => s.actor.Unsubscribed?
    case DropCached => s.actor.Deleted?
    case HandleNote => s.actor == Idle && s.inFlight != []
    case CheckExists => s.actor.Checking?
    case CheckFails => s.actor.Checking?
    case FinishCheck => s.actor.Checked?
  }

  /** A notification is sent to this node if it watches the name. */
  function Notified(s: State, name: string, value: Value): seq<Note> {
    if name in s.watching then s.inFlight + [Note(name, value)] else s.inFlight
  }

  /** What each handler does to the cache once the server has answered it. */
  function Filled(cache: map<string, Value>, name: string, param: Option<Value>): map<string, Value> {
    if param.Some? then cache[name := param.value] else cache
  }

  function Stored(cache: map<string, Value>, subscribed: set<string>, name: string, value: Value): map<string, Value> {
    if name in subscribed then cache[name := value] else cache
  }

  function Refreshed(cache: map<string, Value>, name: string, value: Value, present: bool): map<string, Value> {
    if present then cache[name := value] else cache - {name}
  }

  function Apply(s: State, a: Action): State
    requires Enabled(s, a)
  {
    match a
    case RemoteSet(name, v) => s.(server := s.server[name := v], inFlight := Notified(s, name, v))
    case RemoteDelete(name) => s.(server := s.server - {name}, inFlight := Notified(s, name, EmptyStruct))
    case StartGet(name) =>
      s.(subscribed := s.subscribed + {name}, watching := s.watching + {name}, actor := Reading(name))
    case UseCache => s.(actor := Idle)
    case Fetch => s.(actor := Fetched(s.actor.name, Get(s.server, s.actor.name)))
    case FetchFails => s.(actor := Idle)
    case Fill => s.(actor := Idle, cache := Filled(s.cache, s.actor.name, s.actor.param))
    case StartSet(name, v) =>
      s.(server := s.server[name := v], inFlight := if s.notifySelf then Notified(s, name, v) else s.inFlight,
         actor := Wrote(name, v))
    case StoreSet => s.(actor := Idle, cache := Stored(s.cache, s.subscribed, s.actor.name, s.actor.value))
    case StartDelete(name) =>
      s.(subscribed := s.subscribed - {name},
         watching := if name in s.subscribed then s.watching - {name} else s.watching, actor := Unsubscribed(name))
    case UnsubscribeFails(name) => s.(subscribed := s.subscribed - {name})
    case DeleteFails => s.(actor := Idle)
    case DeleteOnServer =>
      s.(server := s.server - {s.actor.name}, actor := Deleted(s.actor.name),
         inFlight := if s.notifySelf then Notified(s, s.actor.name, EmptyStruct) else s.inFlight)
    case DropCached => s.(cache := s.cache - {s.actor.name}, actor := Idle)
    case HandleNote =>
      var n := s.inFlight[0];
      var s' := s.(inFlight := s.inFlight[1..]);
      if n.name !in s.subscribed then s'
      else if n.value != EmptyStruct then s'.(cache := Refreshed(s.cache, n.name, n.value, true))
      else s'.(actor := Checking(n.name))
    case CheckFails => s.(actor := Idle)
    case CheckExists => s.(actor := Checked(s.actor.name, s.actor.name in s.server))
    case FinishCheck => s.(actor := Idle, cache := Refreshed(s.cache, s.actor.name, EmptyStruct, s.actor.present))
  }

  ghost predicate IsRun(s: State, acts: seq<Action>)
    decreases |acts|
  {
    acts == [] || (Enabled(s, acts[0]) && IsRun(Apply(s, acts[0]), acts[1..]))
  }

  function After(s: State, acts: seq<Action>): State
    requires IsRun(s, acts)
    decreases |acts|
  {
    if acts == [] then s else After(Apply(s, acts[0]), acts[1..])
  }

  // ---------------------------------------------------------------- Coherence

  /** The value of the last notification for a name. */
  function Last(notes: seq<Note>, name: string): Option<Value> {
    if notes == [] then None
    else if notes[|notes| - 1].name == name then Some(notes[|notes| - 1].value)
    else Last(notes[..|notes| - 1], name)
  }

  /** A notification says what the server holds; an empty struct also says that it holds nothing. */
  predicate Denotes(value: Value, held: Option<Value>) {
    held == Some(value) || (value == EmptyStruct && held == None)
  }

  /** With nothing in flight for a name, what the cache holds for it - once the handler at work is
      done - is what the server holds. */
  predicate CacheAgrees(s: State, name: string) {
    var held := Get(s.server, name);
    match s.actor
    case Fetched(n, param) => if n == name then param == held else name in s.cache ==> held == Get(s.cache, name)
    case Wrote(n, v) => if n == name then held == Some(v) else name in s.cache ==> held == Get(s.cache, name)
    case Checking(n) => if n == name then Denotes(EmptyStruct, held) else name in s.cache ==> held == Get(s.cache, name)
    case Checked(n, present) =>
      if n == name then Denotes(EmptyStruct, held) && present == (name in s.server)
      else name in s.cache ==> held == Get(s.cache, name)
    case _ => name in s.cache ==> held == Get(s.cache, name)
  }

  predicate NameOk(s: State, name: string) {
    match Last(s.inFlight, name)
    case Some(v) => Denotes(v, Get(s.server, name))
    case None => CacheAgrees(s, name)
  }

  predicate ActorOk(s: State) {
    && (s.actor.Fetched? || s.actor.Checking? || s.actor.Checked? || s.actor.Reading? ==> s.actor.name in s.subscribed)
    && (s.actor.Unsubscribed? || s.actor.Deleted? ==> s.actor.name !in s.subscribed)
  }

  ghost predicate Coherent(s: State) {
    && s.subscribed <= s.watching
    && ActorOk(s)
    && (s.actor.Fetched? ==> s.actor.name !in s.cache)
    && forall name | name in s.subscribed :: NameOk(s, name)
  }

  /** A name is cached as the server holds it, or not at all. */
  predicate Fresh(s: State, name: string) {
    name in s.cache ==> Get(s.server, name) == Some(s.cache[name])
  }

  /** What the cache needs of its surroundings: a name is subscribed to afresh only with no old
      notification for it in flight, and with no old value cached that a failed deletion left; if the
      server does not notify this node of its own writes, the node writes a subscribed name only with no
      notification for it in flight; and a failing check does not leave an old value behind. */
  predicate Clean(s: State, a: Action) {
    && (a.StartGet? && a.name !in s.subscribed ==> Last(s.inFlight, a.name) == None && Fresh(s, a.name))
    && (a.StartSet? && a.name in s.subscribed && !s.notifySelf ==> Last(s.inFlight, a.name) == None)
    && (a.CheckFails? && s.actor.Checking? && Last(s.inFlight, s.actor.name) == None ==> Fresh(s, s.actor.name))
  }

  ghost predicate CleanRun(s: State, acts: seq<Action>)
    requires IsRun(s, acts)
    decreases |acts|
  {
    acts != [] ==> Clean(s, acts[0]) && CleanRun(Apply(s, acts[0]), acts[1..])
  }

  lemma LastSnoc(notes: seq<Note>, n: Note, name: string)
    ensures Last(notes + [n], name) == if n.name == name then Some(n.value) else Last(notes, name)
  {
    assert (notes + [n])[..|notes|] == notes;
  }

  lemma {:induction false} LastRest(notes: seq<Note>, name: string)
    requires notes != []
    ensures Last(notes[1..], name) == Last(notes, name) || (Last(notes[1..], name) == None && notes[0].name == name)
    ensures Last(notes[1..], name) == None && notes[0].name == name ==> Last(notes, name) == Some(notes[0].value)
  {
    var n := |notes| - 1;
    if n > 0 {
      LastRest(notes[..n], name);
      assert notes[1..][..n - 1] == notes[..n][1..];
    }
  }

  lemma CoherentNotify(s: State, s': State, name: string, v: Value)
    requires Coherent(s)
    requires s' == s.(server := s'.server, inFlight := Notified(s, name, v))
    requires Denotes(v, Get(s'.server, name))
    requires forall n | n != name :: Get(s'.server, n) == Get(s.server, n)
    ensures Coherent(s')
  {
    forall n | n in s'.subscribed ensures NameOk(s', n) {
      LastSnoc(s.inFlight, Note(name, v), n);
      assert NameOk(s, n);
      assert n in s'.server <==> Get(s'.server, n).Some?;
      assert n in s.server <==> Get(s.server, n).Some?;
    }
  }

  lemma CoherentStartSet(s: State, name: string, v: Value)
    requires Coherent(s) && Enabled(s, StartSet(name, v)) && Clean(s, StartSet(name, v))
    ensures Coherent(Apply(s, StartSet(name, v)))
  {
    var s' := Apply(s, StartSet(name, v));
    forall n | n in s'.subscribed ensures NameOk(s', n) {
      LastSnoc(s.inFlight, Note(name, v), n);
      assert NameOk(s, n);
    }
  }

  lemma CoherentHandle(s: State)
    requires Coherent(s) && Enabled(s, HandleNote)
    ensures Coherent(Apply(s, HandleNote))
  {
    var s' := Apply(s, HandleNote);
    forall n | n in s'.subscribed ensures NameOk(s', n) {
      LastRest(s.inFlight, n);
      assert NameOk(s, n);
    }
  }

  /** Handlers at work between server calls change nothing about other names, and leave their own name
      right if nothing is in flight for it. */
  lemma CoherentLocal(s: State, a: Action)
    requires Coherent(s) && Enabled(s, a)
    requires a.UseCache? || a.Fetch? || a.FetchFails? || a.Fill? || a.StoreSet? || a.DropCached?
             || a.CheckExists? || a.CheckFails? || a.FinishCheck?
    requires Clean(s, a)
    ensures Coherent(Apply(s, a))
  {
    var s' := Apply(s, a);
    forall n | n in s'.subscribed ensures NameOk(s', n) {
      assert NameOk(s, n);
    }
  }

  lemma CoherentSubscription(s: State, a: Action)
    requires Coherent(s) && Enabled(s, a) && Clean(s, a)
    requires a.StartGet? || a.StartDelete? || a.UnsubscribeFails? || a.DeleteOnServer? || a.DeleteFails?
    ensures Coherent(Apply(s, a))
  {
    var s' := Apply(s, a);
    forall n | n in s'.subscribed ensures NameOk(s', n) {
      assert n in s.subscribed ==> NameOk(s, n);
      if a.DeleteOnServer? {
        LastSnoc(s.inFlight, Note(s.actor.name, EmptyStruct), n);
      }
    }
  }

  lemma CoherentStep(s: State, a: Action)
    requires Coherent(s) && Enabled(s, a) && Clean(s, a)
    ensures Coherent(Apply(s, a))
  {
    hide Coherent;
    match a
    case RemoteSet(name, v) => CoherentNotify(s, Apply(s, a), name, v);
    case RemoteDelete(name) => CoherentNotify(s, Apply(s, a), name, EmptyStruct);
    case StartSet(name, v) => CoherentStartSet(s, name, v);
    case HandleNote => CoherentHandle(s);
    case StartGet(_) => CoherentSubscription(s, a);
    case StartDelete(_) => CoherentSubscription(s, a);
    case UnsubscribeFails(_) => CoherentSubscription(s, a);
    case DeleteOnServer => CoherentSubscription(s, a);
    case DeleteFails => CoherentSubscription(s, a);
    case _ => CoherentLocal(s, a);
  }

  lemma {:induction false} RunCoherent(s: State, acts: seq<Action>)
    requires Coherent(s) && IsRun(s, acts) && CleanRun(s, acts)
    ensures Coherent(After(s, acts))
    decreases |acts|
  {
    hide Coherent, Apply, Enabled, Clean;
    if acts != [] {
      CoherentStep(s, acts[0]);
      RunCoherent(Apply(s, acts[0]), acts[1..]);
    }
  }

  // ---------------------------------------------------------------- Cached without a subscription

  /** Cached, not subscribed, and not just being deleted. */
  predicate Orphan(s: State, name: string) {
    name in s.cache && name !in s.subscribed && s.actor != Unsubscribed(name) && s.actor != Deleted(name)
  }

  /** A deletion of a cached name fails, at either of its calls. */
  predicate DeletionFails(s: State, a: Action, name: string) {
    name in s.cache && (a == UnsubscribeFails(name) || (a == DeleteFails && s.actor == Unsubscribed(name)))
  }

  /** No cached read of the name, and no new attempt to delete it. */
  predicate LeftAlone(acts: seq<Action>, name: string) {
    forall k | 0 <= k < |acts| :: acts[k] != StartGet(name) && acts[k] != StartDelete(name)
  }

  /** Somewhere in the run a deletion of the cached name fails, and the name is left alone from then on. */
  predicate OrphanedIn(s: State, acts: seq<Action>, name: string)
    requires IsRun(s, acts)
    decreases |acts|
  {
    acts != [] &&
    ((DeletionFails(s, acts[0], name) && LeftAlone(acts[1..], name)) || OrphanedIn(Apply(s, acts[0]), acts[1..], name))
  }

  /** One step: an orphan stays one unless it is taken up again, and only a failing deletion makes one. */
  lemma OrphanStep(s: State, a: Action, name: string)
    requires ActorOk(s) && Enabled(s, a)
    ensures ActorOk(Apply(s, a))
    ensures Orphan(Apply(s, a), name) <==>
            DeletionFails(s, a, name) || (Orphan(s, name) && a != StartGet(name) && a != StartDelete(name))
  {
  }

  lemma {:induction false} OrphansFrom(s: State, acts: seq<Action>, name: string)
    requires ActorOk(s) && IsRun(s, acts)
    ensures Orphan(After(s, acts), name) <==> OrphanedIn(s, acts, name) || (Orphan(s, name) && LeftAlone(acts, name))
    decreases |acts|
  {
    hide Apply, Enabled, Orphan, DeletionFails, ActorOk;
    if acts != [] {
      OrphanStep(s, acts[0], name);
      OrphansFrom(Apply(s, acts[0]), acts[1..], name);
      assert LeftAlone(acts, name) <==>
             acts[0] != StartGet(name) && acts[0] != StartDelete(name) && LeftAlone(acts[1..], name) by {
        assert forall k | 0 <= k < |acts[1..]| :: acts[1..][k] == acts[k + 1];
      }
    }
  }

  /** In every run, whatever fails: a name is cached without being subscribed (or just being deleted)
      exactly if a deletion of it failed while it was cached and it was left alone since. */
  lemma OrphansExact(notifySelf: bool, server: map<string, Value>, acts: seq<Action>, name: string)
    requires IsRun(Init(notifySelf, server), acts)
    ensures Orphan(After(Init(notifySelf, server), acts), name) <==> OrphanedIn(Init(notifySelf, server), acts, name)
  {
    OrphansFrom(Init(notifySelf, server), acts, name);
  }

  /** Cache coherence: after every clean run the last notification in flight for a subscribed name
      denotes what the server holds, and with none in flight and no handler at work, a value cached for a
      subscribed name is the server's. Unless a deletion failed, only subscribed names are cached. */
  lemma CacheCoherence(notifySelf: bool, server: map<string, Value>, acts: seq<Action>, name: string)
    requires IsRun(Init(notifySelf, server), acts) && CleanRun(Init(notifySelf, server), acts)
    ensures var s := After(Init(notifySelf, server), acts);
            && (name in s.subscribed && Last(s.inFlight, name).Some? ==>
                  Denotes(Last(s.inFlight, name).value, Get(s.server, name)))
            && (s.actor == Idle && name in s.subscribed && name in s.cache && Last(s.inFlight, name) == None ==>
                  Get(s.server, name) == Some(s.cache[name]))
            && (s.actor == Idle && name in s.cache && !OrphanedIn(Init(notifySelf, server), acts, name) ==>
                  name in s.subscribed)
  {
    RunCoherent(Init(notifySelf, server), acts);
    OrphansExact(notifySelf, server, acts, name);
    var s := After(Init(notifySelf, server), acts);
    if name in s.subscribed {
      assert NameOk(s, name);
    }
  }

  // ---------------------------------------------------------------- What a reader is given

  /** `get_cached_param` run without interruption: the value it returns. */
  function ReadParam(s: State, name: string): Option<Value>
    requires s.actor == Idle
  {
    if name in s.cache then Some(s.cache[name]) else Get(s.server, name)
  }

  /** After a clean run with nothing in flight for the name, and no failed deletion of it left alone, a
      cached read returns what the server holds. */
  lemma CachedReadIsServerRead(notifySelf: bool, server: map<string, Value>, acts: seq<Action>, name: string)
    requires IsRun(Init(notifySelf, server), acts) && CleanRun(Init(notifySelf, server), acts)
    requires !OrphanedIn(Init(notifySelf, server), acts, name)
    requires var s := After(Init(notifySelf, server), acts); s.actor == Idle && Last(s.inFlight, name) == None
    ensures var s := After(Init(notifySelf, server), acts); ReadParam(s, name) == Get(s.server, name)
  {
    CacheCoherence(notifySelf, server, acts, name);
  }

  /** `delete_param` run without interruption, its calls succeeding as told. */
  function Deletion(s: State, name: string, unsubscribed: bool, deleted: bool): State
    requires s.actor == Idle
  {
    if name in s.subscribed && !unsubscribed then Apply(s, UnsubscribeFails(name))
    else
      var s1 := Apply(s, StartDelete(name));
      if !deleted then Apply(s1, DeleteFails) else Apply(Apply(s1, DeleteOnServer), DropCached)
  }

  /** A deletion leaves its name cached without a subscription exactly if it was cached and one of the
      calls made fails, and does so to no other name; and a cached read after it returns what the server
      holds exactly if it was not cached, all calls succeed, or the old value happens to be the server's. */
  lemma DeletionExact(s: State, name: string, unsubscribed: bool, deleted: bool)
    requires s.actor == Idle
    ensures var s' := Deletion(s, name, unsubscribed, deleted);
            var ok := (name in s.subscribed ==> unsubscribed) && deleted;
            && s'.actor == Idle
            && (Orphan(s', name) <==> name in s.cache && !ok)
            && (forall n | n != name :: Orphan(s', n) <==> Orphan(s, n))
            && (ReadParam(s', name) == Get(s'.server, name) <==> ok || Fresh(s, name))
  {
  }

  // ---------------------------------------------------------------- When it fails

  /** A notification handled in one go while the server does not change. */
  function HandleAtomically(s: State): State
    requires s.actor == Idle && s.inFlight != []
  {
    var s1 := Apply(s, HandleNote);
    if s1.actor == Idle then s1 else Apply(Apply(s1, CheckExists), FinishCheck)
  }

  /** What a notification leaves in the cache. */
  function Effect(value: Value, server: map<string, Value>, name: string): Option<Value> {
    if value != EmptyStruct || name in server then Some(value) else None
  }

  /** Handling a notification changes the cache for its own name alone, and only if subscribed. */
  lemma HandlingOne(s: State, name: string)
    requires s.actor == Idle && s.inFlight != []
    ensures var n, s' := s.inFlight[0], HandleAtomically(s);
            && s'.actor == Idle && s'.inFlight == s.inFlight[1..]
            && s'.server == s.server && s'.subscribed == s.subscribed
            && (n.name == name && name in s.subscribed ==>
                  Get(s'.cache, name) == Effect(n.value, s.server, name))
            && (n.name != name || name !in s.subscribed ==> Get(s'.cache, name) == Get(s.cache, name))
  {
    var n := s.inFlight[0];
    if n.name in s.subscribed && n.value == EmptyStruct {
      var s1 := s.(inFlight := s.inFlight[1..], actor := Checking(n.name));
      assert Apply(s, HandleNote) == s1;
      assert Apply(s1, CheckExists) == s1.(actor := Checked(n.name, n.name in s.server));
    }
  }

  /** All notifications in flight, handled in order. */
  function Drain(s: State): (d: State)
    requires s.actor == Idle
    ensures d.actor == Idle && d.inFlight == [] && d.server == s.server && d.subscribed == s.subscribed
    decreases |s.inFlight|
  {
    hide HandleAtomically;
    if s.inFlight == [] then s else
      HandlingOne(s, s.inFlight[0].name);
      Drain(HandleAtomically(s))
  }

  /** After everything in flight was handled, a subscribed name is cached as its last notification says. */
  lemma {:induction false} DrainExact(s: State, name: string)
    requires s.actor == Idle && name in s.subscribed
    ensures Get(Drain(s).cache, name) ==
            match Last(s.inFlight, name)
            case Some(v) => Effect(v, s.server, name)
            case None => Get(s.cache, name)
    decreases |s.inFlight|
  {
    hide HandleAtomically, Effect;
    if s.inFlight != [] {
      LastRest(s.inFlight, name);
      HandlingOne(s, name);
      DrainExact(HandleAtomically(s), name);
    }
  }

  /** The node's own write of a subscribed name, unnotified, with no other node writing: once everything
      in flight is handled the cache holds the new value exactly when nothing was in flight for the
      name, or the last notification in flight happened to carry that value. */
  lemma OwnWriteExact(s: State, name: string, v: Value)
    requires s.actor == Idle && name in s.subscribed && !s.notifySelf
    ensures var s' := Apply(Apply(s, StartSet(name, v)), StoreSet);
            && Get(s'.server, name) == Some(v)
            && (Get(Drain(s').cache, name) == Some(v) <==>
                  Last(s.inFlight, name) == None || Last(s.inFlight, name) == Some(v))
  {
    hide Drain;
    DrainExact(Apply(Apply(s, StartSet(name, v)), StoreSet), name);
  }

  /** A fresh subscription, with no other node writing, be the name still cached or not: once everything
      in flight is handled the cache holds what the server does exactly when the last old notification for
      the name leaves that, or there is none and the old cached value, if any, is the server's. */
  lemma ResubscribeExact(s: State, name: string)
    requires s.actor == Idle && name !in s.subscribed
    ensures var s1 := Apply(s, StartGet(name));
            var s' := if name in s.cache then Apply(s1, UseCache) else Apply(Apply(s1, Fetch), Fill);
            && s'.server == s.server && s'.actor == Idle
            && (Get(Drain(s').cache, name) == Get(s.server, name) <==>
                  match Last(s.inFlight, name)
                  case Some(v) => Effect(v, s.server, name) == Get(s.server, name)
                  case None => Fresh(s, name))
  {
    hide Drain;
    var s1 := Apply(s, StartGet(name));
    DrainExact(if name in s.cache then Apply(s1, UseCache) else Apply(Apply(s1, Fetch), Fill), name);
  }

  /** A check that fails, with no other node writing: once everything else in flight is handled the cache
      holds for the name what the server does, or nothing, exactly when the last notification still to come
      for it leaves what the server holds, or there is none and the old cached value, if any, is the
      server's. */
  lemma FailedCheckExact(s: State)
    requires s.actor.Checking? && s.actor.name in s.subscribed
    ensures var name, s' := s.actor.name, Apply(s, CheckFails);
            && s'.server == s.server && s'.actor == Idle
            && (Fresh(Drain(s'), name) <==>
                  match Last(s.inFlight, name)
                  case Some(v) => Effect(v, s.server, name) == Get(s.server, name)
                  case None => Fresh(s, name))
  {
    hide Drain;
    var name, d := s.actor.name, Drain(Apply(s, CheckFails));
    DrainExact(Apply(s, CheckFails), name);
    assert name in d.cache <==> Get(d.cache, name).Some?;
    assert name in s.cache <==> Get(s.cache, name).Some?;
  }

  // ---------------------------------------------------------------- Runs in which it fails

  lemma {:induction false} Extend(s: State, acts: seq<Action>, a: Action)
    requires IsRun(s, acts) && Enabled(After(s, acts), a)
    ensures IsRun(s, acts + [a]) && After(s, acts + [a]) == Apply(After(s, acts), a)
    decreases |acts|
  {
    hide Apply, Enabled;
    if acts == [] {
      assert [a][1..] == [];
    } else {
      Extend(Apply(s, acts[0]), acts[1..], a);
      assert (acts + [a])[1..] == acts[1..] + [a];
    }
  }

  /** The first cached read of a name. */
  lemma FirstRead(notifySelf: bool, server: map<string, Value>, name: string) returns (acts: seq<Action>)
    ensures IsRun(Init(notifySelf, server), acts)
    ensures After(Init(notifySelf, server), acts) ==
            State(notifySelf, server, {name}, [], {name}, if name in server then map[name := server[name]] else map[], Idle)
  {
    var s0 := Init(notifySelf, server);
    assert IsRun(s0, []) && After(s0, []) == s0;
    hide IsRun, After;
    Extend(s0, [], StartGet(name));
    acts := [] + [StartGet(name)];
    Extend(s0, acts, Fetch);
    acts := acts + [Fetch];
    Extend(s0, acts, Fill);
    acts := acts + [Fill];
  }

  /** The same with another node's write notified and not yet handled. */
  lemma NotedWrite(notifySelf: bool, name: string, v: Value) returns (acts: seq<Action>)
    ensures IsRun(Init(notifySelf, map[]), acts)
    ensures After(Init(notifySelf, map[]), acts) ==
            State(notifySelf, map[name := v], {name}, [Note(name, v)], {name}, map[], Idle)
  {
    acts := FirstRead(notifySelf, map[], name);
    hide IsRun, After;
    Extend(Init(notifySelf, map[]), acts, RemoteSet(name, v));
    acts := acts + [RemoteSet(name, v)];
  }

  /** An own write that is not notified, with another node's older write still in flight: when that is
      handled the cache goes back to the older value, with nothing more to come. */
  lemma OwnWriteLost(name: string, older: Value, own: Value) returns (acts: seq<Action>)
    requires older != own && older != EmptyStruct
    ensures IsRun(Init(false, map[]), acts)
    ensures After(Init(false, map[]), acts) ==
            State(false, map[name := own], {name}, [], {name}, map[name := older], Idle)
  {
    var s0 := Init(false, map[]);
    acts := NotedWrite(false, name, older);
    hide IsRun, After;
    Extend(s0, acts, StartSet(name, own));
    acts := acts + [StartSet(name, own)];
    Extend(s0, acts, StoreSet);
    acts := acts + [StoreSet];
    Extend(s0, acts, HandleNote);
    acts := acts + [HandleNote];
  }

  /** A name deleted and read again while another node's older write is in flight: the cache ends up with
      that write although the server holds nothing. */
  lemma ResubscribedTooSoon(notifySelf: bool, name: string, older: Value) returns (acts: seq<Action>)
    requires older != EmptyStruct
    ensures IsRun(Init(notifySelf, map[]), acts)
    ensures After(Init(notifySelf, map[]), acts) ==
            State(notifySelf, map[], {name}, [], {name}, map[name := older], Idle)
  {
    var s0 := Init(notifySelf, map[]);
    acts := NotedWrite(notifySelf, name, older);
    hide IsRun, After;
    Extend(s0, acts, StartDelete(name));
    acts := acts + [StartDelete(name)];
    Extend(s0, acts, DeleteOnServer);
    acts := acts + [DeleteOnServer];
    Extend(s0, acts, DropCached);
    acts := acts + [DropCached];
    assert After(s0, acts) == State(notifySelf, map[], {}, [Note(name, older)], {}, map[], Idle);
    Extend(s0, acts, StartGet(name));
    acts := acts + [StartGet(name)];
    Extend(s0, acts, Fetch);
    acts := acts + [Fetch];
    Extend(s0, acts, Fill);
    acts := acts + [Fill];
    Extend(s0, acts, HandleNote);
    acts := acts + [HandleNote];
  }

  /** A deletion whose second call fails, and another node's write after it, which the server does not
      notify: a cached read returns the old value, with nothing in flight. */
  lemma FailedDeletionReadsStale(notifySelf: bool, name: string, stale: Value, current: Value) returns (acts: seq<Action>)
    requires stale != current
    ensures IsRun(Init(notifySelf, map[name := stale]), acts)
    ensures var s := After(Init(notifySelf, map[name := stale]), acts);
            && Orphan(s, name) && s.actor == Idle && s.inFlight == []
            && Get(s.server, name) == Some(current) && ReadParam(s, name) == Some(stale)
  {
    var s0 := Init(notifySelf, map[name := stale]);
    acts := FirstRead(notifySelf, map[name := stale], name);
    hide IsRun, After;
    Extend(s0, acts, StartDelete(name));
    acts := acts + [StartDelete(name)];
    Extend(s0, acts, DeleteFails);
    acts := acts + [DeleteFails];
    Extend(s0, acts, RemoteSet(name, current));
    acts := acts + [RemoteSet(name, current)];
  }

  /** Another node deletes a cached name, and the check its notification asks for fails: the value stays. */
  lemma FailedCheckKeepsValue(notifySelf: bool, name: string, value: Value) returns (acts: seq<Action>)
    ensures IsRun(Init(notifySelf, map[name := value]), acts)
    ensures After(Init(notifySelf, map[name := value]), acts) ==
            State(notifySelf, map[], {name}, [], {name}, map[name := value], Idle)
  {
    var s0 := Init(notifySelf, map[name := value]);
    acts := FirstRead(notifySelf, map[name := value], name);
    hide IsRun, After;
    Extend(s0, acts, RemoteDelete(name));
    acts := acts + [RemoteDelete(name)];
    assert After(s0, acts).inFlight == [Note(name, EmptyStruct)];
    Extend(s0, acts, HandleNote);
    acts := acts + [HandleNote];
    Extend(s0, acts, CheckFails);
    acts := acts + [CheckFails];
  }
}
