/** The parameter actor's handlers as runs of `ParameterCache`: each, uninterrupted, is a sequence of the
    machine's steps with the effect its method in `ParameterActor` promises. */
module ParameterRuns {
  import opened Wrappers
  import opened ParameterCache

  lemma NoSteps(s: State)
    ensures IsRun(s, []) && After(s, []) == s
  {
  }

  /** `get_cached_param`, its subscription succeeding: a cached value stays, and otherwise what the server
      holds is cached if it holds anything and the call to fetch it succeeds. */
  lemma GetIsRun(s: State, name: string, fetches: bool) returns (acts: seq<Action>)
    requires s.actor == Idle
    ensures IsRun(s, acts)
    ensures After(s, acts) ==
            s.(subscribed := s.subscribed + {name}, watching := s.watching + {name},
               cache := if name !in s.cache && fetches && name in s.server then s.cache[name := s.server[name]]
                        else s.cache)
  {
    hide IsRun, After;
    NoSteps(s);
    Extend(s, [], StartGet(name));
    acts := [] + [StartGet(name)];
    if name in s.cache {
      Extend(s, acts, UseCache);
      acts := acts + [UseCache];
    } else if fetches {
      Extend(s, acts, Fetch);
      Extend(s, acts + [Fetch], Fill);
      acts := acts + [Fetch] + [Fill];
    } else {
      Extend(s, acts, FetchFails);
      acts := acts + [FetchFails];
    }
  }

  /** `set_param`: the server holds the value, this node is notified if the server does that and it watches
      the name, and the value is cached only if the name is subscribed. */
  lemma SetIsRun(s: State, name: string, value: Value)
    requires s.actor == Idle
    ensures var acts := [StartSet(name, value), StoreSet];
            && IsRun(s, acts)
            && After(s, acts) ==
               s.(server := s.server[name := value],
                  inFlight := if s.notifySelf && name in s.watching then s.inFlight + [Note(name, value)] else s.inFlight,
                  cache := if name in s.subscribed then s.cache[name := value] else s.cache)
  {
    hide IsRun, After;
    NoSteps(s);
    Extend(s, [], StartSet(name, value));
    Extend(s, [] + [StartSet(name, value)], StoreSet);
    assert [] + [StartSet(name, value)] + [StoreSet] == [StartSet(name, value), StoreSet];
  }

  /** `delete_param`: the subscription goes in any case; the server's value and the cached one stay if the
      call to unsubscribe fails, and the cached one stays if the call to delete fails. */
  lemma DeleteIsRun(s: State, name: string, unsubscribes: bool, deletes: bool) returns (acts: seq<Action>)
    requires s.actor == Idle
    ensures IsRun(s, acts)
    ensures var reached := name !in s.subscribed || unsubscribes;
            After(s, acts) ==
            s.(subscribed := s.subscribed - {name},
               watching := if name in s.subscribed && unsubscribes then s.watching - {name} else s.watching,
               server := if reached && deletes then s.server - {name} else s.server,
               inFlight := if reached && deletes && s.notifySelf && name in s.watching && name !in s.subscribed
                           then s.inFlight + [Note(name, EmptyStruct)] else s.inFlight,
               cache := if reached && deletes then s.cache - {name} else s.cache)
  {
    hide IsRun, After;
    NoSteps(s);
    if name in s.subscribed && !unsubscribes {
      Extend(s, [], UnsubscribeFails(name));
      acts := [] + [UnsubscribeFails(name)];
    } else {
      Extend(s, [], StartDelete(name));
      acts := [] + [StartDelete(name)];
      if deletes {
        Extend(s, acts, DeleteOnServer);
        Extend(s, acts + [DeleteOnServer], DropCached);
        acts := acts + [DeleteOnServer] + [DropCached];
      } else {
        Extend(s, acts, DeleteFails);
        acts := acts + [DeleteFails];
      }
    }
  }

  /** `update_cached_param`: the notification is taken; for a subscribed name its value is cached, but an empty
      struct only if the server holds the name, the cached value going if it does not and staying if the call
      to ask fails. */
  lemma UpdateIsRun(s: State, asks: bool) returns (acts: seq<Action>)
    requires s.actor == Idle && s.inFlight != []
    ensures IsRun(s, acts)
    ensures var n := s.inFlight[0];
            After(s, acts) ==
            s.(inFlight := s.inFlight[1..],
               cache := if n.name !in s.subscribed then s.cache
                        else if n.value != EmptyStruct then s.cache[n.name := n.value]
                        else if !asks then s.cache
                        else if n.name in s.server then s.cache[n.name := n.value]
                        else s.cache - {n.name})
  {
    hide IsRun, After;
    var n := s.inFlight[0];
    NoSteps(s);
    Extend(s, [], HandleNote);
    acts := [] + [HandleNote];
    if n.name in s.subscribed && n.value == EmptyStruct {
      if asks {
        Extend(s, acts, CheckExists);
        Extend(s, acts + [CheckExists], FinishCheck);
        acts := acts + [CheckExists] + [FinishCheck];
      } else {
        Extend(s, acts, CheckFails);
        acts := acts + [CheckFails];
      }
    }
  }

  /** One message at a time: while a handler is at work, notifications only arrive, the subscriptions stay, and
      a read ends only with a cached value, a fetched one, or a failed call. */
  lemma OneAtATime(s: State, a: Action)
    requires Enabled(s, a) && s.actor != Idle
    ensures var s' := Apply(s, a);
            && s.inFlight <= s'.inFlight && s'.subscribed == s.subscribed
            && (s.actor.Reading? && s'.actor != s.actor ==>
                  if s.actor.name in s.cache then s' == s.(actor := Idle)
                  else a == FetchFails || s'.actor == Fetched(s.actor.name, Get(s.server, s.actor.name)))
  {
  }
}
