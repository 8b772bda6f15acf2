/** The parameter actor as code. The server's answers are parameters. `ParameterCache` interleaves the
    handlers' steps with the server's, and `ParameterRuns` says that an uninterrupted run of them has the
    effect promised here. */
module ParameterActor {
  import opened Wrappers
  import opened ParameterCache
  import opened Seqs

  datatype ActorError = MasterError

  class Actor {
    var subscribedParams: set<string>
    var paramCache: map<string, Value>
    var unsubscribed: seq<string>   // the names `unsubscribe_param` was called for

    constructor ()
      ensures subscribedParams == {} && paramCache == map[] && unsubscribed == []
    {
      subscribedParams, paramCache, unsubscribed := {}, map[], [];
    }

    /** `get_cached_param`: subscribe first if need be, then the cached value, then the server's. */
    method GetCachedParam(name: string, subscribed: bool, fetched: Result<Option<Value>, ActorError>)
      returns (r: Result<Option<Value>, ActorError>)
      modifies this`subscribedParams, this`paramCache
      ensures var ready := name in old(subscribedParams) || subscribed;
              && subscribedParams == (if ready then old(subscribedParams) + {name} else old(subscribedParams))
              && r == (if !ready then Err(MasterError)
                       else if name in old(paramCache) then Ok(Some(old(paramCache)[name])) else fetched)
              && paramCache == (if ready && name !in old(paramCache) && fetched.Ok?
                                then Filled(old(paramCache), name, fetched.value) else old(paramCache))
    {
      if name !in subscribedParams {
        if !subscribed {
          return Err(MasterError);
        }
        subscribedParams := subscribedParams + {name};
      }
      if name in paramCache {
        return Ok(Some(paramCache[name]));
      }
      if fetched.Ok? && fetched.value.Some? {
        paramCache := paramCache[name := fetched.value.value];
      }
      return fetched;
    }

    method SetParam(name: string, value: Value, written: bool) returns (r: Result<(), ActorError>)
      modifies this`paramCache
      ensures r == if written then Ok(()) else Err(MasterError)
      ensures paramCache == if written then Stored(old(paramCache), subscribedParams, name, value) else old(paramCache)
    {
      if !written {
        return Err(MasterError);
      }
      if name in subscribedParams {
        paramCache := paramCache[name := value];
      }
      return Ok(());
    }

    /** `delete_param`: the subscription goes first, the cached value last; a failing call in between
        leaves the cached value behind. */
    method DeleteParam(name: string, unsubscribed: bool, deleted: bool) returns (r: Result<(), ActorError>)
      modifies this`subscribedParams, this`paramCache
      ensures var ok := (name !in old(subscribedParams) || unsubscribed) && deleted;
              && r == (if ok then Ok(()) else Err(MasterError))
              && subscribedParams == old(subscribedParams) - {name}
              && paramCache == (if ok then old(paramCache) - {name} else old(paramCache))
    {
      if name in subscribedParams {
        subscribedParams := subscribedParams - {name};
        if !unsubscribed {
          return Err(MasterError);
        }
      }
      if !deleted {
        return Err(MasterError);
      }
      paramCache := paramCache - {name};
      return Ok(());
    }

    /** `update_cached_param`: `present` is what `has_param` answers, `None` when the call fails. */
    method UpdateCachedParam(name: string, value: Value, present: Option<bool>) returns (r: Result<(), ActorError>)
      modifies this`paramCache
      ensures name !in subscribedParams ==> r == Ok(()) && paramCache == old(paramCache)
      ensures name in subscribedParams && value != EmptyStruct ==>
                r == Ok(()) && paramCache == Refreshed(old(paramCache), name, value, true)
      ensures name in subscribedParams && value == EmptyStruct ==>
                match present
                case None => r == Err(MasterError) && paramCache == old(paramCache)
                case Some(p) => r == Ok(()) && paramCache == Refreshed(old(paramCache), name, value, p)
    {
      if name in subscribedParams {
        if value != EmptyStruct {
          paramCache := paramCache[name := value];
        } else {
          if present.None? {
            return Err(MasterError);
          }
          if present.value {
            paramCache := paramCache[name := value];
          } else {
            paramCache := paramCache - {name};
          }
        }
      }
      return Ok(());
    }

    /** `post_stop`: every subscription is given up, each once. */
    method PostStop()
      modifies this`subscribedParams, this`unsubscribed
      ensures subscribedParams == {}
      ensures |unsubscribed| >= |old(unsubscribed)| && unsubscribed[..|old(unsubscribed)|] == old(unsubscribed)
      ensures var names := unsubscribed[|old(unsubscribed)|..];
              NoRepeats(names) && forall n :: n in names <==> n in old(subscribedParams)
    {
      ghost var done := unsubscribed;
      ghost var names: seq<string> := [];
      var taken := subscribedParams;
      subscribedParams := {};
      while taken != {}
        invariant subscribedParams == {}
        invariant unsubscribed == done + names && NoRepeats(names)
        invariant forall n :: n in old(subscribedParams) <==> n in names || n in taken
        invariant forall n | n in taken :: n !in names
        decreases taken
      {
        var name :| name in taken;
        taken := taken - {name};
        unsubscribed := unsubscribed + [name];
        names := names + [name];
      }
      assert unsubscribed[|done|..] == names;
    }
  }

  /** A cached name is deleted and read again: the read returns the old value whatever the server holds,
      unless both of the deletion's calls succeeded. */
  method ReadAfterDeletion(name: string, stale: Value, unsubscribed: bool, deleted: bool, current: Option<Value>)
    returns (r: Result<Option<Value>, ActorError>)
    ensures r == Ok(if unsubscribed && deleted then current else Some(stale))
  {
    var actor := new Actor();
    var _ := actor.GetCachedParam(name, true, Ok(Some(stale)));
    var done := actor.DeleteParam(name, unsubscribed, deleted);
    assert name !in actor.subscribedParams && (done.Err? <==> name in actor.paramCache);
    r := actor.GetCachedParam(name, true, Ok(current));
  }
}
