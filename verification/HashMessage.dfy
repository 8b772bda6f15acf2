/** The checksum of a message definition: the memoised recursion over its dependencies computes what
    the plain recursion does. */
module HashMessage {
  import opened Wrappers
  import opened Seqs

  /** A parsed definition with everything it depends on. `represent` is a message's checksum text given
      the hashes of its dependencies, and `md5` the digest; neither is looked into. */
  datatype Definitions = Definitions(
    known: map<string, seq<string>>,
    represent: (string, seq<string>) -> Option<string>,
    md5: string -> string
  )

  /** The messages of interest, and a number for each that is above those of its dependencies. */
  datatype Order = Order(rank: string -> nat, scope: set<string>)

  /** In a scope that holds whatever its messages depend on, no message depends on itself. */
  ghost predicate Acyclic(d: Definitions, o: Order) {
    && o.scope <= d.known.Keys
    && forall p, i | p in o.scope && 0 <= i < |d.known[p]| && d.known[p][i] in d.known ::
         d.known[p][i] in o.scope && o.rank(d.known[p][i]) < o.rank(p)
  }

  ghost predicate InScope(d: Definitions, o: Order, path: string) {
    path in d.known && path in o.scope
  }

  /** The hash without the table: every dependency's hash, computed afresh. */
  ghost function PureHash(d: Definitions, o: Order, path: string): Option<string>
    requires Acyclic(d, o) && InScope(d, o, path)
    decreases o.rank(path), |d.known[path]| + 1
  {
    match PureHashes(d, o, path, |d.known[path]|)
    case None => None
    case Some(hashes) =>
      match d.represent(path, hashes)
      case None => None
      case Some(text) => Some(d.md5(text))
  }

  /** The hashes of a message's first `n` dependencies; a dependency without a definition has none. */
  ghost function PureHashes(d: Definitions, o: Order, path: string, n: nat): (r: Option<seq<string>>)
    requires Acyclic(d, o) && InScope(d, o, path) && n <= |d.known[path]|
    ensures r.Some? ==> |r.value| == n
    decreases o.rank(path), n
  {
    if n == 0 then Some([])
    else
      match PureHashes(d, o, path, n - 1)
      case None => None
      case Some(hashes) =>
        var dep := d.known[path][n - 1];
        if dep !in d.known then None
        else
          match PureHash(d, o, dep)
          case None => None
          case Some(h) => Some(hashes + [h])
  }

  /** `get_md5_representation`: the hashes it looks up, if all are there. */
  function Lookup(hashes: map<string, string>, deps: seq<string>): (r: Option<seq<string>>)
    ensures r.Some? <==> forall i | 0 <= i < |deps| :: deps[i] in hashes
    ensures r.Some? ==> |r.value| == |deps| && forall i | 0 <= i < |deps| :: r.value[i] == hashes[deps[i]]
  {
    if forall i | 0 <= i < |deps| :: deps[i] in hashes then
      Some(seq(|deps|, i requires 0 <= i < |deps| => hashes[deps[i]]))
    else None
  }

  ghost predicate Correct(d: Definitions, o: Order, hashes: map<string, string>)
    requires Acyclic(d, o)
  {
    forall q | q in hashes :: InScope(d, o, q) && PureHash(d, o, q) == Some(hashes[q])
  }

  /** The log holds each entry of the table once. */
  ghost predicate Logged(hashed: seq<string>, hashes: map<string, string>) {
    NoRepeats(hashed) && forall q :: q in hashed <==> q in hashes
  }

  /** The table only grows, by messages of a rank below the bound. */
  ghost predicate Grown(before: map<string, string>, after: map<string, string>, o: Order, bound: nat) {
    && (forall q | q in before :: q in after && after[q] == before[q])
    && (forall q | q in after && q !in before :: o.rank(q) < bound)
  }

  ghost predicate HasFirst(d: Definitions, hashes: map<string, string>, deps: seq<string>, n: nat)
    requires n <= |deps|
  {
    forall k | 0 <= k < n && deps[k] in d.known :: deps[k] in hashes
  }

  lemma OneMore(d: Definitions, before: map<string, string>, after: map<string, string>, deps: seq<string>, i: nat,
                o: Order, bound: nat)
    requires i < |deps| && HasFirst(d, before, deps, i) && Grown(before, after, o, bound)
    requires deps[i] in d.known ==> deps[i] in after
    ensures HasFirst(d, after, deps, i + 1)
  {
  }

  lemma Unchanged(d: Definitions, hashes: map<string, string>, o: Order, bound: nat, deps: seq<string>)
    ensures Grown(hashes, hashes, o, bound) && HasFirst(d, hashes, deps, 0)
  {
  }

  /** A message is not among those of lower rank. */
  lemma NotYet(before: map<string, string>, after: map<string, string>, o: Order, path: string)
    requires Grown(before, after, o, o.rank(path)) && path !in before
    ensures path !in after
  {
  }

  lemma Widened(start: map<string, string>, before: map<string, string>, after: map<string, string>,
                o: Order, first: nat, second: nat, outer: nat)
    requires Grown(start, before, o, first) && Grown(before, after, o, second)
    requires first <= outer && second <= outer
    ensures Grown(start, after, o, outer)
  {
  }

  lemma Below(d: Definitions, o: Order, path: string, i: nat)
    requires Acyclic(d, o) && InScope(d, o, path) && i < |d.known[path]| && d.known[path][i] in d.known
    ensures o.rank(d.known[path][i]) < o.rank(path) && InScope(d, o, d.known[path][i])
  {
  }

  class Hasher {
    const definitions: Definitions
    ghost const order: Order
    var hashes: map<string, string>
    ghost var hashed: seq<string>   // the messages digested, in order

    /** Every entry is the plain recursion's hash, and each was digested once. */
    ghost predicate Valid()
      reads this
    {
      && Acyclic(definitions, order) && Correct(definitions, order, hashes)
      && Logged(hashed, hashes)
    }

    constructor (definitions: Definitions, ghost order: Order)
      requires Acyclic(definitions, order)
      ensures Valid() && hashes == map[] && this.definitions == definitions && this.order == order
    {
      this.definitions, this.order, hashes, hashed := definitions, order, map[], [];
    }

    /** The message's own digest, once its dependencies are in the table. */
    method Digest(path: string) returns (r: Option<string>)
      requires Valid() && InScope(definitions, order, path) && path !in hashes
      requires HasFirst(definitions, hashes, definitions.known[path], |definitions.known[path]|)
      modifies this
      ensures Valid()
      ensures r == PureHash(definitions, order, path)
      ensures r.Some? ==> hashes == old(hashes)[path := r.value] && hashed == old(hashed) + [path]
      ensures r == None ==> hashes == old(hashes)
      ensures Grown(old(hashes), hashes, order, order.rank(path) + 1)
    {
      hide PureHashes, Lookup, Acyclic;
      var deps := definitions.known[path];
      var found := Lookup(hashes, deps);
      LookupIsPure(definitions, order, path, hashes, |deps|);
      assert deps[..|deps|] == deps;
      if found == None {
        return None;
      }
      var text := definitions.represent(path, found.value);
      if text == None {
        return None;
      }
      r := Some(definitions.md5(text.value));
      hashes := hashes[path := r.value];
      hashed := hashed + [path];
    }

    /** One dependency of `hash_message`'s loop. */
    method HashDependency(path: string, i: nat) returns (ok: bool)
      requires Valid() && InScope(definitions, order, path) && i < |definitions.known[path]|
      modifies this
      ensures Valid() && Grown(old(hashes), hashes, order, order.rank(path))
      ensures ok && definitions.known[path][i] in definitions.known ==> definitions.known[path][i] in hashes
      ensures !ok ==>
                && definitions.known[path][i] in definitions.known
                && PureHash(definitions, order, definitions.known[path][i]) == None
      decreases order.rank(path), 0
    {
      hide Acyclic, PureHash, PureHashes, Correct, Logged, Grown;
      var dep := definitions.known[path][i];
      Unchanged(definitions, hashes, order, order.rank(path), []);
      if dep in hashes || dep !in definitions.known {
        return true;
      }
      Below(definitions, order, path, i);
      var h := HashMessage(dep);
      Widened(old(hashes), old(hashes), hashes, order, order.rank(path), order.rank(dep) + 1, order.rank(path));
      return h.Some?;
    }

    /** `hash_message`. */
    method HashMessage(path: string) returns (r: Option<string>)
      requires Valid() && InScope(definitions, order, path) && path !in hashes
      modifies this
      ensures Valid()
      ensures r == PureHash(definitions, order, path)
      ensures r.Some? ==> path in hashes && hashes[path] == r.value
      ensures Grown(old(hashes), hashes, order, order.rank(path) + 1)
      decreases order.rank(path), 1
    {
      hide Acyclic, PureHash, PureHashes, Correct, Logged, HasFirst, Grown;
      var deps := definitions.known[path];
      Unchanged(definitions, hashes, order, order.rank(path), deps);
      for i := 0 to |deps|
        invariant Valid() && Grown(old(hashes), hashes, order, order.rank(path)) && HasFirst(definitions, hashes, deps, i)
      {
        ghost var before := hashes;
        var ok := HashDependency(path, i);
        if !ok {
          FailedDependency(definitions, order, path, |deps|, i);
          FailedMessage(definitions, order, path);
          Widened(old(hashes), before, hashes, order, order.rank(path), order.rank(path), order.rank(path) + 1);
          return None;
        }
        Widened(old(hashes), before, hashes, order, order.rank(path), order.rank(path), order.rank(path));
        OneMore(definitions, before, hashes, deps, i, order, order.rank(path));
      }
      NotYet(old(hashes), hashes, order, path);
      ghost var before := hashes;
      r := Digest(path);
      Widened(old(hashes), before, hashes, order, order.rank(path), order.rank(path) + 1, order.rank(path) + 1);
    }
  }

  lemma {:induction false} GivenHashes(d: Definitions, o: Order, path: string, hashes: seq<string>, n: nat)
    requires Acyclic(d, o) && InScope(d, o, path) && n <= |hashes| == |d.known[path]|
    requires forall i | 0 <= i < |hashes| ::
               d.known[path][i] in d.known && PureHash(d, o, d.known[path][i]) == Some(hashes[i])
    ensures PureHashes(d, o, path, n) == Some(hashes[..n])
    decreases n
  {
    hide PureHash;
    if n > 0 {
      GivenHashes(d, o, path, hashes, n - 1);
      assert hashes[..n] == hashes[..n - 1] + [hashes[n - 1]];
    }
  }

  /** The hash of a message is the digest of its text, made from the hashes of its dependencies in their order -
      from none if it has none - and fails only if the text cannot be made. */
  lemma HashFromDependencies(d: Definitions, o: Order, path: string, hashes: seq<string>)
    requires Acyclic(d, o) && InScope(d, o, path) && |hashes| == |d.known[path]|
    requires forall i | 0 <= i < |hashes| ::
               d.known[path][i] in d.known && PureHash(d, o, d.known[path][i]) == Some(hashes[i])
    ensures PureHash(d, o, path) ==
            match d.represent(path, hashes)
            case Some(text) => Some(d.md5(text))
            case None => None
  {
    GivenHashes(d, o, path, hashes, |hashes|);
    assert hashes[..|hashes|] == hashes;
  }

  lemma FailedMessage(d: Definitions, o: Order, path: string)
    requires Acyclic(d, o) && InScope(d, o, path) && PureHashes(d, o, path, |d.known[path]|) == None
    ensures PureHash(d, o, path) == None
  {
  }

  /** One dependency that fails makes the message fail. */
  lemma {:induction false} FailedDependency(d: Definitions, o: Order, path: string, n: nat, i: nat)
    requires Acyclic(d, o) && InScope(d, o, path) && i < n <= |d.known[path]|
    requires d.known[path][i] in d.known ==> PureHash(d, o, d.known[path][i]) == None
    ensures PureHashes(d, o, path, n) == None
    decreases n
  {
    if i < n - 1 {
      FailedDependency(d, o, path, n - 1, i);
    }
  }

  /** What is looked up in a table of correct hashes is what would be computed afresh. */
  lemma {:induction false} LookupIsPure(d: Definitions, o: Order, path: string,
                                        hashes: map<string, string>, n: nat)
    requires Acyclic(d, o) && InScope(d, o, path) && n <= |d.known[path]|
    requires Correct(d, o, hashes)
    requires HasFirst(d, hashes, d.known[path], |d.known[path]|)
    ensures PureHashes(d, o, path, n) == Lookup(hashes, d.known[path][..n])
    decreases n
  {
    hide PureHash, Acyclic;
    if n > 0 {
      LookupIsPure(d, o, path, hashes, n - 1);
      var deps, dep := d.known[path], d.known[path][n - 1];
      assert forall i | 0 <= i < n :: deps[..n][i] == deps[i];
      assert forall i | 0 <= i < n - 1 :: deps[..n - 1][i] == deps[i];
      if dep !in d.known {
        assert deps[..n][n - 1] !in hashes;
      } else if Lookup(hashes, deps[..n - 1]).Some? {
        assert Lookup(hashes, deps[..n]).value == Lookup(hashes, deps[..n - 1]).value + [hashes[dep]];
      } else {
        var i :| 0 <= i < n - 1 && deps[..n - 1][i] !in hashes;
        assert deps[..n][i] !in hashes;
      }
    }
  }

  /** The plain hash is the same whichever way the absence of cycles is witnessed. */
  lemma {:induction false} RankIrrelevant(d: Definitions, o1: Order, o2: Order, path: string, n: nat)
    requires Acyclic(d, o1) && Acyclic(d, o2) && InScope(d, o1, path) && InScope(d, o2, path) && n <= |d.known[path]|
    ensures PureHashes(d, o1, path, n) == PureHashes(d, o2, path, n)
    ensures n == |d.known[path]| ==> PureHash(d, o1, path) == PureHash(d, o2, path)
    decreases o1.rank(path), n
  {
    if n > 0 {
      RankIrrelevant(d, o1, o2, path, n - 1);
      var dep := d.known[path][n - 1];
      if dep in d.known {
        RankIrrelevant(d, o1, o2, dep, |d.known[dep]|);
      }
    }
  }
}
