/** src/tests/quickcheck_map.rs: any run of map operations, with snapshots, against a plain map. */
module Runs {
  import opened Trees
  import opened Content
  import opened Store
  import opened KeyValues
  import opened MapTrees
  import Cardinality
  import Hamt
  import Maps
  import Snapshots
  import Two3

  datatype Op<!V> =
    | Insert(key: int, val: V)
    | Get(key: int)
    | Assign(key: int, f: V -> V)
    | Remove(key: int)
    | Values
    | MapValues(f: V -> V)
    | WriteValues(w: (V, V) -> V, vals: seq<V>)
    | Count
    | Hash
    | HashPersist
    | Restore(snapshot: nat)

  datatype Out<+V> =
    | Done
    | Had(val: Option<V>)
    | Changed(found: bool)
    | Listed(leaves: seq<KV<V>>)
    | Counted(n: nat)
    | Hashed(digest: Bytes)
    | HashedTwice(dry: Bytes, stored: Bytes)

  /** A map and the tree it is kept in. */
  datatype Held<V(!new), A(!new)> = Held(ts: seq<Tree<KV<V>, A>>, m: map<int, V>)

  /** Where a run stands: the map at hand, and those that snapshots were taken of. */
  datatype State<V(!new), A(!new)> = State(live: Held<V, A>, saved: seq<Held<V, A>>)

  ghost predicate Sound<V(!new), A(!new)>(c: Config<V, A>, x: Held<V, A>) {
    exists h :: TreeOf(c, x.ts, h, x.m)
  }

  // ---- a run on plain maps, and on the trees that go with them

  ghost function Update<V(!new), A(!new)>(c: Config<V, A>, x: Held<V, A>, op: Op<V>): Held<V, A> {
    match op
    case Insert(k, v) => Held(Inserted(c, x.ts, x.m, k, v), x.m[k := v])
    case Assign(k, f) =>
      if k in x.m then Held(Assigned(c, x.ts, x.m, k, f(x.m[k])), x.m[k := f(x.m[k])]) else x
    case Remove(k) => Held(Removed(c, x.ts, x.m, k), x.m - {k})
    case MapValues(f) =>
      var n := map k | k in x.m :: f(x.m[k]);
      Held(Revised(c, x.ts, Maps.MappedLeaves(f, Leaves(x.ts)), n), n)
    case WriteValues(w, vals) =>
      var ls := Maps.Revalued(w, Leaves(x.ts), vals);
      Held(Revised(c, x.ts, ls, MapOf(ls)), MapOf(ls))
    case _ => x
  }

  ghost function Next<V(!new), A(!new)>(c: Config<V, A>, s: State<V, A>, op: Op<V>): State<V, A> {
    match op
    case HashPersist => s.(saved := s.saved + [s.live])
    case Restore(i) => if i < |s.saved| then s.(live := s.saved[i]) else s
    case _ => s.(live := Update(c, s.live, op))
  }

  ghost function After<V(!new), A(!new)>(c: Config<V, A>, ops: seq<Op<V>>): State<V, A> {
    if ops == [] then State(Held(Started(c), map[]), [])
    else Next(c, After(c, ops[..|ops| - 1]), ops[|ops| - 1])
  }

  ghost function Answer<V(!new), A(!new)>(c: Config<V, A>, x: Held<V, A>, op: Op<V>): Out<V> {
    match op
    case Insert(k, _) => Had(Lookup(x.m, k))
    case Get(k) => Had(Lookup(x.m, k))
    case Assign(k, _) => Changed(k in x.m)
    case Remove(k) => Had(Lookup(x.m, k))
    case Values => Listed(Leaves(x.ts))
    case Count => Counted(|x.m|)
    case Hash => Hashed(Digest(c.env, x.ts))
    case HashPersist => HashedTwice(Digest(c.env, x.ts), Digest(c.env, x.ts))
    case _ => Done
  }

  // ---- what a run needs

  /** An insertion panics when it meets a key it cannot tell apart; what `count` counts is a cardinality. */
  ghost predicate Can<V(!new), A(!new)>(c: Config<V, A>, cnt: A -> nat, m: map<int, V>, op: Op<V>) {
    match op
    case Insert(k, _) => c.env.kind.Two3? || !Hamt.Clash(c.env, c.keyHash, m, k, 0)
    case Count => Cardinality.Counting(c.env, cnt)
    case _ => true
  }

  ghost predicate AllCan<V(!new), A(!new)>(c: Config<V, A>, cnt: A -> nat, ops: seq<Op<V>>) {
    forall i :: 0 <= i < |ops| ==> Can(c, cnt, After(c, ops[..i]).live.m, ops[i])
  }

  /** The nodes of the trees that snapshots were taken of. */
  ghost function SavedBlobs<V(!new), A(!new)>(c: Config<V, A>, saved: seq<Held<V, A>>): set<Bytes> {
    if saved == [] then {} else SavedBlobs(c, saved[..|saved| - 1]) + BlobsOf(c.env, saved[|saved| - 1].ts)
  }

  lemma {:induction false} SavedMore<V(!new), A(!new)>(c: Config<V, A>, ops: seq<Op<V>>, i: nat)
    requires i <= |ops|
    ensures SavedBlobs(c, After(c, ops[..i]).saved) <= SavedBlobs(c, After(c, ops).saved)
    decreases |ops|
  {
    hide Next, SavedBlobs;
    if i == |ops| {
      assert ops[..i] == ops;
    } else {
      var before, s := ops[..|ops| - 1], After(c, ops[..|ops| - 1]);
      assert before[..i] == ops[..i];
      SavedMore(c, before, i);
      MoreSaved(c, s, ops[|ops| - 1]);
    }
  }

  lemma MoreSaved<V(!new), A(!new)>(c: Config<V, A>, s: State<V, A>, op: Op<V>)
    ensures SavedBlobs(c, s.saved) <= SavedBlobs(c, Next(c, s, op).saved)
  {
    assert (s.saved + [s.live])[..|s.saved|] == s.saved;
  }

  // ---- what a root hash says

  lemma {:induction false} BalancedFit<V(!new), A(!new)>(e: Env<KV<V>, A>, ts: seq<Tree<KV<V>, A>>, h: nat)
    requires e.kind.Two3? && |ts| <= Two3.M && Two3.Balanced(ts, h)
    ensures Snapshots.AllFit(e, ts)
    decreases h
  {
    forall i | 0 <= i < |ts| && ts[i].Node?
      ensures Snapshots.AllFit(e, ts[i].kids)
    {
      assert Two3.BalancedKid(ts[i], h);
      BalancedFit(e, ts[i].kids, h - 1);
    }
  }

  lemma {:induction false} CanonicalFit<V(!new), A(!new)>(e: Env<KV<V>, A>, kh: int -> Bytes,
      ts: seq<Tree<KV<V>, A>>, d: nat, m: map<int, V>)
    requires !e.kind.Two3? && Hamt.Canonical(e, kh, ts, d, m)
    ensures Snapshots.AllFit(e, ts)
    decreases ts
  {
    forall i | 0 <= i < |ts| && ts[i].Node?
      ensures Snapshots.AllFit(e, ts[i].kids)
    {
      assert Hamt.CanonicalSlot(e, kh, ts[i], d, Hamt.Share(e, kh, m, d, i));
      CanonicalFit(e, kh, ts[i].kids, d + 1, Hamt.Share(e, kh, m, d, i));
    }
  }

  lemma TreeFit<V(!new), A(!new)>(c: Config<V, A>, ts: seq<Tree<KV<V>, A>>, h: nat, m: map<int, V>)
    requires TreeOf(c, ts, h, m)
    ensures Snapshots.AllFit(c.env, ts)
  {
    if c.env.kind.Two3? {
      BalancedFit(c.env, ts, h);
    } else {
      CanonicalFit(c.env, c.keyHash, ts, 0, m);
    }
  }

  /** A root hash names one tree and one map, if no two nodes of the two trees compared collide. */
  lemma SameHashSameMap<V(!new), A(!new)>(c: Config<V, A>, x: Held<V, A>, y: Held<V, A>)
    requires c.Lawful() && Sound(c, x) && Sound(c, y)
    requires CollisionFree(c.env, BlobsOf(c.env, x.ts) + BlobsOf(c.env, y.ts))
    requires Digest(c.env, x.ts) == Digest(c.env, y.ts)
    ensures x == y
  {
    var h :| TreeOf(c, x.ts, h, x.m);
    var g :| TreeOf(c, y.ts, g, y.m);
    TreeFit(c, x.ts, h, x.m);
    TreeFit(c, y.ts, g, y.m);
    Snapshots.HashCommits(c.env, x.ts, y.ts);
    TreeLists(c, x.ts, h, x.m);
    TreeLists(c, y.ts, g, y.m);
    ListsUnique(Leaves(x.ts), x.m, y.m);
  }

  // ---- a script read backwards

  /** How many snapshots a script takes. */
  ghost function Snaps<V>(ops: seq<Op<V>>): nat {
    if ops == [] then 0 else Snaps(ops[..|ops| - 1]) + if ops[|ops| - 1].HashPersist? then 1 else 0
  }

  /** How far a script had come when it took snapshot `n`. */
  ghost function TakenAt<V>(ops: seq<Op<V>>, n: nat): (r: Option<nat>)
    ensures r.Some? ==> r.value < |ops| && ops[r.value].HashPersist? && Snaps(ops[..r.value]) == n
    ensures r.Some? <==> n < Snaps(ops)
  {
    if ops == [] then Option.None
    else
      var before := ops[..|ops| - 1];
      var r := TakenAt(before, n);
      if r.Some? then
        assert before[..r.value] == ops[..r.value];
        r
      else if ops[|ops| - 1].HashPersist? && Snaps(before) == n then Some(|before|)
      else Option.None
  }

  lemma {:induction false} SavedAt<V(!new), A(!new)>(c: Config<V, A>, ops: seq<Op<V>>, i: nat)
    requires i < |ops| && ops[i].HashPersist?
    ensures |After(c, ops).saved| == Snaps(ops) > Snaps(ops[..i])
    ensures After(c, ops).saved[Snaps(ops[..i])] == After(c, ops[..i]).live
    decreases |ops|
  {
    var before := ops[..|ops| - 1];
    SavedCount(c, before);
    if i < |before| {
      assert before[..i] == ops[..i];
      SavedAt(c, before, i);
    }
  }

  lemma {:induction false} SavedCount<V(!new), A(!new)>(c: Config<V, A>, ops: seq<Op<V>>)
    ensures |After(c, ops).saved| == Snaps(ops)
  {
    if ops != [] {
      SavedCount(c, ops[..|ops| - 1]);
    }
  }

  lemma AfterOne<V(!new), A(!new)>(c: Config<V, A>, ops: seq<Op<V>>, op: Op<V>)
    ensures After(c, ops + [op]) == Next(c, After(c, ops), op)
  {
    assert (ops + [op])[..|ops|] == ops;
  }

  /** Restoring a snapshot brings back the map, and the tree, as they were when that snapshot was taken, whatever
      happened since; a snapshot that was not taken cannot be restored. */
  lemma RestoreBack<V(!new), A(!new)>(c: Config<V, A>, ops: seq<Op<V>>, i: nat, n: nat)
    ensures i < |ops| && ops[i].HashPersist? ==>
              After(c, ops + [Restore(Snaps(ops[..i]))]).live == After(c, ops[..i]).live
    ensures Snaps(ops) <= n ==> After(c, ops + [Restore(n)]) == After(c, ops)
    ensures After(c, ops + [Restore(n)]).saved == After(c, ops).saved
  {
    hide After;
    if i < |ops| && ops[i].HashPersist? {
      AfterOne(c, ops, Restore(Snaps(ops[..i])));
      SavedAt(c, ops, i);
    }
    AfterOne(c, ops, Restore(n));
    SavedCount(c, ops);
  }

  function Applied<V>(f: V -> V, v: Option<V>): Option<V> {
    if v.Some? then Some(f(v.value)) else v
  }

  /** Where the leaf of a key stands. */
  ghost function Place<V>(ls: seq<KV<V>>, k: int): nat {
    if ls == [] || ls[0].key == k then 0 else 1 + Place(ls[1..], k)
  }

  /** What a script last made of one key, read off the script from its end, without a map: the last write to the key
      decides, and a restored snapshot is looked up where it was taken. */
  ghost function Recall<V(!new), A(!new)>(c: Config<V, A>, ops: seq<Op<V>>, k: int): Option<V>
    decreases |ops|
  {
    if ops == [] then Option.None
    else
      var before := ops[..|ops| - 1];
      match ops[|ops| - 1]
      case Insert(a, v) => if a == k then Some(v) else Recall(c, before, k)
      case Assign(a, f) => if a == k then Applied(f, Recall(c, before, k)) else Recall(c, before, k)
      case Remove(a) => if a == k then Option.None else Recall(c, before, k)
      case MapValues(f) => Applied(f, Recall(c, before, k))
      case WriteValues(w, vals) =>
        var at := Place(Leaves(After(c, before).live.ts), k);
        if at < |vals| then Applied(v => w(v, vals[at]), Recall(c, before, k)) else Recall(c, before, k)
      case Restore(n) =>
        var taken := TakenAt(before, n);
        Recall(c, if taken.Some? then before[..taken.value] else before, k)
      case _ => Recall(c, before, k)
  }

  ghost predicate AllSound<V(!new), A(!new)>(c: Config<V, A>, ops: seq<Op<V>>) {
    forall i :: 0 <= i <= |ops| ==> Sound(c, After(c, ops[..i]).live)
  }

  lemma SoundBefore<V(!new), A(!new)>(c: Config<V, A>, ops: seq<Op<V>>, i: nat)
    requires AllSound(c, ops) && i <= |ops|
    ensures AllSound(c, ops[..i])
  {
    forall j | 0 <= j <= i
      ensures Sound(c, After(c, ops[..i][..j]).live)
    {
      assert ops[..i][..j] == ops[..j];
    }
  }

  lemma {:induction false} PlaceIs<V>(ls: seq<KV<V>>, i: nat)
    requires Distinct(ls) && i < |ls|
    ensures Place(ls, ls[i].key) == i
  {
    if i > 0 {
      PlaceIs(ls[1..], i - 1);
    }
  }

  lemma RevaluedAt<V(!new)>(w: (V, V) -> V, vals: seq<V>, ls: seq<KV<V>>, m: map<int, V>, k: int)
    requires Lists(ls, m)
    ensures Lookup(MapOf(Maps.Revalued(w, ls, vals)), k) ==
            if Place(ls, k) < |vals| then Applied(v => w(v, vals[Place(ls, k)]), Lookup(m, k)) else Lookup(m, k)
  {
    hide MapOf, Place;
    var ks := Maps.Revalued(w, ls, vals);
    DistinctLists(ks);
    Maps.ValuesWritten(w, ls, vals, MapOf(ks));
    if k in m {
      var i :| 0 <= i < |ls| && ls[i] == KV(k, m[k]);
      PlaceIs(ls, i);
    }
  }

  lemma WrittenAt<V(!new), A(!new)>(c: Config<V, A>, x: Held<V, A>, w: (V, V) -> V, vals: seq<V>, k: int)
    requires c.Lawful() && Sound(c, x)
    ensures var at := Place(Leaves(x.ts), k);
            Lookup(Update(c, x, WriteValues(w, vals)).m, k) ==
            if at < |vals| then Applied(v => w(v, vals[at]), Lookup(x.m, k)) else Lookup(x.m, k)
  {
    hide TreeOf, Revised, MapOf, Place, Maps.Revalued, Lists, Config.Lawful;
    var h :| TreeOf(c, x.ts, h, x.m);
    TreeLists(c, x.ts, h, x.m);
    RevaluedAt(w, vals, Leaves(x.ts), x.m, k);
  }

  lemma RecallsNone<V(!new), A(!new)>(c: Config<V, A>, k: int)
    ensures Lookup(After(c, []).live.m, k) == Recall(c, [], k)
  {
  }

  /** One more operation that neither writes along a listing nor goes back. */
  lemma RecallsOne<V(!new), A(!new)>(c: Config<V, A>, ops: seq<Op<V>>, k: int)
    requires ops != [] && !ops[|ops| - 1].WriteValues? && !ops[|ops| - 1].Restore?
    requires Lookup(After(c, ops[..|ops| - 1]).live.m, k) == Recall(c, ops[..|ops| - 1], k)
    ensures Lookup(After(c, ops).live.m, k) == Recall(c, ops, k)
  {
    hide Inserted, Removed, Revised, Assigned, MapOf;
  }

  lemma RecallsWritten<V(!new), A(!new)>(c: Config<V, A>, ops: seq<Op<V>>, k: int)
    requires c.Lawful() && ops != [] && ops[|ops| - 1].WriteValues? && Sound(c, After(c, ops[..|ops| - 1]).live)
    requires Lookup(After(c, ops[..|ops| - 1]).live.m, k) == Recall(c, ops[..|ops| - 1], k)
    ensures Lookup(After(c, ops).live.m, k) == Recall(c, ops, k)
  {
    hide Update, Place, Sound, Config.Lawful;
    var op := ops[|ops| - 1];
    WrittenAt(c, After(c, ops[..|ops| - 1]).live, op.w, op.vals, k);
  }

  lemma RecallsRestored<V(!new), A(!new)>(c: Config<V, A>, ops: seq<Op<V>>, k: int)
    requires ops != [] && ops[|ops| - 1].Restore?
    requires var before, n := ops[..|ops| - 1], ops[|ops| - 1].snapshot;
             var now := if n < Snaps(before) then before[..TakenAt(before, n).value] else before;
             Lookup(After(c, now).live.m, k) == Recall(c, now, k)
    ensures Lookup(After(c, ops).live.m, k) == Recall(c, ops, k)
  {
    hide Update, TakenAt;
    var before, n := ops[..|ops| - 1], ops[|ops| - 1].snapshot;
    SavedCount(c, before);
    if n < Snaps(before) {
      SavedAt(c, before, TakenAt(before, n).value);
    }
  }

  /** What a run holds under a key is what its script says of that key. */
  lemma {:induction false} Recalls<V(!new), A(!new)>(c: Config<V, A>, ops: seq<Op<V>>, k: int)
    requires c.Lawful() && AllSound(c, ops)
    ensures Lookup(After(c, ops).live.m, k) == Recall(c, ops, k)
    decreases |ops|
  {
    hide *;
    if ops == [] {
      RecallsNone(c, k);
    } else {
      var before, op := ops[..|ops| - 1], ops[|ops| - 1];
      SoundBefore(c, ops, |before|);
      Recalls(c, before, k);
      if op.WriteValues? {
        SoundAt(c, ops, |before|);
        RecallsWritten(c, ops, k);
      } else if op.Restore? {
        if op.snapshot < Snaps(before) {
          SoundBefore(c, before, TakenAt(before, op.snapshot).value);
          Recalls(c, before[..TakenAt(before, op.snapshot).value], k);
        }
        RecallsRestored(c, ops, k);
      } else {
        RecallsOne(c, ops, k);
      }
    }
  }

  lemma SoundAt<V(!new), A(!new)>(c: Config<V, A>, ops: seq<Op<V>>, i: nat)
    requires AllSound(c, ops) && i <= |ops|
    ensures Sound(c, After(c, ops[..i]).live)
  {
  }

  /** The answer `out` to `op` after `ops`, by what the script says of each key. */
  ghost predicate Told<V(!new), A(!new)>(c: Config<V, A>, ops: seq<Op<V>>, op: Op<V>, out: Out<V>) {
    match op
    case Insert(k, _) => out == Had(Recall(c, ops, k))
    case Get(k) => out == Had(Recall(c, ops, k))
    case Remove(k) => out == Had(Recall(c, ops, k))
    case Assign(k, _) => out == Changed(Recall(c, ops, k).Some?)
    case Values =>
      && out.Listed? && Distinct(out.leaves) && (c.env.kind.Two3? ==> Sorted(out.leaves))
      && forall l: KV<V> :: l in out.leaves <==> Recall(c, ops, l.key) == Some(l.val)
    case Count =>
      exists ks: set<int> :: out == Counted(|ks|) && forall k :: k in ks <==> Recall(c, ops, k).Some?
    case Hash => out == Hashed(Digest(c.env, After(c, ops).live.ts))
    case HashPersist => out.HashedTwice? && out.dry == out.stored == Digest(c.env, After(c, ops).live.ts)
    case _ => out == Done
  }

  lemma Tells<V(!new), A(!new)>(c: Config<V, A>, ops: seq<Op<V>>, op: Op<V>)
    requires c.Lawful() && AllSound(c, ops)
    ensures Told(c, ops, op, Answer(c, After(c, ops).live, op))
  {
    hide After, Recall, AllSound, TreeOf;
    var x := After(c, ops).live;
    forall k
      ensures Lookup(x.m, k) == Recall(c, ops, k)
    {
      Recalls(c, ops, k);
    }
    if op.Values? {
      assert ops[..|ops|] == ops;
      SoundAt(c, ops, |ops|);
      var h :| TreeOf(c, x.ts, h, x.m);
      TreeLists(c, x.ts, h, x.m);
      forall l: KV<V>
        ensures l in Leaves(x.ts) <==> Recall(c, ops, l.key) == Some(l.val)
      {
        assert l == KV(l.key, l.val);
      }
    }
    if op.Count? {
      assert |x.m| == |x.m.Keys|;
      assert forall k :: k in x.m.Keys <==> Recall(c, ops, k).Some?;
    }
  }

  // ---- what a session keeps

  /** A snapshot resolves in the store, to the tree it was taken of. */
  ghost predicate Kept<V(!new), A(!new)>(c: Config<V, A>, s: Blobs, d: Bytes, x: Held<V, A>) {
    Sound(c, x) && d == Digest(c.env, x.ts) && Stored(c.env, s, x.ts)
  }

  ghost predicate AllKept<V(!new), A(!new)>(c: Config<V, A>, s: Blobs, ds: seq<Bytes>, saved: seq<Held<V, A>>) {
    |ds| == |saved| && forall i :: 0 <= i < |ds| ==> Kept(c, s, ds[i], saved[i])
  }

  lemma KeptOn<V(!new), A(!new)>(c: Config<V, A>, s: Blobs, t: Blobs, ds: seq<Bytes>, saved: seq<Held<V, A>>)
    requires AllKept(c, s, ds, saved) && Extends(s, t)
    ensures AllKept(c, t, ds, saved)
  {
    forall i | 0 <= i < |ds|
      ensures Kept(c, t, ds[i], saved[i])
    {
      StoredExtends(c.env, s, t, saved[i].ts);
    }
  }

  /** The store holds nodes of saved trees and nothing else. */
  ghost predicate Confined<V(!new), A(!new)>(c: Config<V, A>, s: Blobs, saved: seq<Held<V, A>>) {
    Addressed(c.env, s) && s.Values <= SavedBlobs(c, saved)
  }

  lemma SavedNext<V(!new), A(!new)>(c: Config<V, A>, s: Blobs, t: Blobs, ds: seq<Bytes>, saved: seq<Held<V, A>>,
      d: Bytes, x: Held<V, A>)
    requires AllKept(c, t, ds, saved) && Kept(c, t, d, x)
    requires Confined(c, s, saved) && Grew(c.env, s, t, BlobsOf(c.env, x.ts))
    ensures AllKept(c, t, ds + [d], saved + [x]) && Confined(c, t, saved + [x])
  {
    assert (saved + [x])[..|saved|] == saved;
  }

  class Session<V(!new), A(!new)> {
    const c: Config<V, A>
    const cnt: A -> nat
    const store: Store
    const live: Maps.Map<V, A>
    var snapshots: seq<Bytes>
    ghost var saved: seq<Held<V, A>>

    ghost function Live(): Held<V, A>
      reads live
    {
      Held(live.tree, live.contents)
    }

    ghost function Now(): State<V, A>
      reads this, live
    {
      State(Live(), saved)
    }

    ghost predicate Valid()
      reads this, live, store
    {
      && c.Lawful()
      && store.Valid() && live.Valid(c, store.blobs)
      && Confined(c, store.blobs, saved)
      && AllKept(c, store.blobs, snapshots, saved)
    }

    constructor (c: Config<V, A>, cnt: A -> nat)
      requires c.Lawful()
      ensures Valid() && fresh(store) && fresh(live)
      ensures Now() == State(Held(Started(c), map[]), [])
      ensures this.c == c && this.cnt == cnt
    {
      this.c, this.cnt := c, cnt;
      var st := new Store();
      store := st;
      live := new Maps.Map(c, st.blobs);
      snapshots, saved := [], [];
    }

    method Read(op: Op<V>) returns (out: Out<V>)
      requires Valid() && Can(c, cnt, live.contents, op)
      requires op.Get? || op.Values? || op.Count? || op.Hash?
      modifies live
      ensures Valid() && Now() == Next(c, old(Now()), op) && out == Answer(c, old(Live()), op)
    {
      match op
      case Get(k) =>
        var r := live.Get(c, store, k);
        out := Had(r);
      case Values =>
        var ls := live.Values(c, store);
        out := Listed(ls);
      case Count =>
        var n := live.Count(c, cnt, store.blobs);
        out := Counted(n);
      case Hash =>
        var d := live.RootHash(c, store);
        out := Hashed(d);
    }

    method Write(op: Op<V>) returns (out: Out<V>)
      requires Valid() && Can(c, cnt, live.contents, op)
      requires op.Insert? || op.Assign? || op.Remove? || op.MapValues? || op.WriteValues?
      modifies live
      ensures Valid() && Now() == Next(c, old(Now()), op) && out == Answer(c, old(Live()), op)
    {
      hide Confined, AllKept, Inserted, Removed, Revised, Assigned;
      match op
      case Insert(k, v) =>
        var r := live.Insert(c, store, k, v);
        out := Had(r.val);
      case Assign(k, f) =>
        var found := live.Assign(c, store, k, f);
        out := Changed(found);
      case Remove(k) =>
        var r := live.Remove(c, store, k);
        out := Had(r);
      case MapValues(f) =>
        live.MapValues(c, store, f);
        out := Done;
      case WriteValues(w, vals) =>
        ghost var ls := Maps.Revalued(w, Leaves(live.tree), vals);
        live.WriteValues(c, store, w, vals);
        DistinctLists(ls);
        ListsUnique(ls, live.contents, MapOf(ls));
        out := Done;
    }

    /** Needs that no node of the tree collides with another or with what the store holds. */
    method HashAndPersist() returns (dry: Bytes, stored: Bytes)
      requires Valid() && Room(c.env, store.blobs, BlobsOf(c.env, live.tree))
      modifies live`kids, store
      ensures store.Valid() && live.Valid(c, store.blobs) && AllKept(c, store.blobs, snapshots, saved)
      ensures dry == stored && Kept(c, store.blobs, stored, Live())
      ensures Grew(c.env, old(store.blobs), store.blobs, BlobsOf(c.env, live.tree))
    {
      ghost var s := store.blobs;
      dry := live.RootHash(c, store);
      stored := live.Persist(c, store);
      KeptOn(c, s, store.blobs, snapshots, saved);
    }

    method Save() returns (out: Out<V>)
      requires Valid() && Room(c.env, store.blobs, BlobsOf(c.env, live.tree))
      modifies this`snapshots, this`saved, live`kids, store
      ensures Valid() && Now() == Next(c, old(Now()), HashPersist) && out == Answer(c, old(Live()), HashPersist)
    {
      hide Store.Valid, Maps.Map.Valid, AllKept, Kept, Confined, Grew, Room, BlobsOf;
      var dry, stored := HashAndPersist();
      SavedNext(c, old(store.blobs), store.blobs, snapshots, saved, stored, Live());
      snapshots, saved := snapshots + [stored], saved + [Live()];
      out := HashedTwice(dry, stored);
    }

    method Back(i: nat) returns (out: Out<V>)
      requires Valid()
      modifies live
      ensures Valid() && Now() == Next(c, old(Now()), Restore(i)) && out == Answer(c, old(Live()), Restore(i))
    {
      if i < |snapshots| {
        assert Kept(c, store.blobs, snapshots[i], saved[i]);
        ghost var h :| TreeOf(c, saved[i].ts, h, saved[i].m);
        live.Restore(c, store, snapshots[i], saved[i].ts, h, saved[i].m);
      }
      out := Done;
    }

    method Do(op: Op<V>) returns (out: Out<V>)
      requires Valid() && Can(c, cnt, live.contents, op)
      requires op.HashPersist? ==> Room(c.env, store.blobs, BlobsOf(c.env, live.tree))
      modifies this`snapshots, this`saved, live, store
      ensures Valid() && Now() == Next(c, old(Now()), op) && out == Answer(c, old(Live()), op)
    {
      hide Valid, Next, Answer, Can, Room;
      match op
      case HashPersist => out := Save();
      case Restore(i) => out := Back(i);
      case Get(_) => out := Read(op);
      case Values => out := Read(op);
      case Count => out := Read(op);
      case Hash => out := Read(op);
      case _ => out := Write(op);
    }

    lemma StandsSound()
      requires Valid()
      ensures Sound(c, Live())
    {
      assert TreeOf(c, live.tree, live.height, live.contents);
    }

    lemma HasRoom(ops: seq<Op<V>>, i: nat)
      requires Valid() && i < |ops| && Now() == After(c, ops[..i]) && ops[i].HashPersist?
      requires CollisionFree(c.env, SavedBlobs(c, After(c, ops).saved))
      ensures Room(c.env, store.blobs, BlobsOf(c.env, live.tree))
    {
      RoomInRun(c, ops, i, store.blobs);
    }
  }

  lemma StartsEmpty<V(!new), A(!new)>(c: Config<V, A>, ops: seq<Op<V>>)
    ensures After(c, ops[..0]) == State(Held(Started(c), map[]), [])
  {
  }

  lemma AfterNext<V(!new), A(!new)>(c: Config<V, A>, ops: seq<Op<V>>, i: nat)
    requires i < |ops|
    ensures After(c, ops[..i + 1]) == Next(c, After(c, ops[..i]), ops[i])
  {
    assert ops[..i + 1][..i] == ops[..i];
  }

  /** At every point of a run a snapshot can be taken, if the trees it takes snapshots of do not collide. */
  lemma RoomInRun<V(!new), A(!new)>(c: Config<V, A>, ops: seq<Op<V>>, i: nat, s: Blobs)
    requires i < |ops| && ops[i].HashPersist?
    requires CollisionFree(c.env, SavedBlobs(c, After(c, ops).saved))
    requires Confined(c, s, After(c, ops[..i]).saved)
    ensures Room(c.env, s, BlobsOf(c.env, After(c, ops[..i]).live.ts))
  {
    var now := After(c, ops[..i]);
    AfterNext(c, ops, i);
    SavedMore(c, ops, i + 1);
    assert (now.saved + [now.live])[..|now.saved|] == now.saved;
  }

  /** A session that ran `ops`, and what it answered. */
  method Play<V(!new), A(!new)>(c: Config<V, A>, cnt: A -> nat, ops: seq<Op<V>>)
    returns (session: Session<V, A>, outs: seq<Out<V>>)
    requires c.Lawful() && AllCan(c, cnt, ops)
    requires CollisionFree(c.env, SavedBlobs(c, After(c, ops).saved))
    ensures session.Valid() && fresh(session) && fresh(session.store) && fresh(session.live)
    ensures session.c == c && session.cnt == cnt && session.Now() == After(c, ops)
    ensures |outs| == |ops|
    ensures forall i :: 0 <= i < |ops| ==> outs[i] == Answer(c, After(c, ops[..i]).live, ops[i])
    ensures forall i :: 0 <= i <= |ops| ==> Sound(c, After(c, ops[..i]).live)
  {
    hide Session.Valid, After, Next, Answer, SavedBlobs, Sound, Can, Room, CollisionFree;
    StartsEmpty(c, ops);
    session := new Session(c, cnt);
    outs := [];
    session.StandsSound();
    for i := 0 to |ops|
      invariant session.Valid() && fresh(session) && fresh(session.store) && fresh(session.live)
      invariant session.c == c && session.cnt == cnt && session.Now() == After(c, ops[..i])
      invariant |outs| == i && forall j :: 0 <= j < i ==> outs[j] == Answer(c, After(c, ops[..j]).live, ops[j])
      invariant forall j :: 0 <= j <= i ==> Sound(c, After(c, ops[..j]).live)
    {
      if ops[i].HashPersist? {
        session.HasRoom(ops, i);
      }
      var out := session.Do(ops[i]);
      AfterNext(c, ops, i);
      session.StandsSound();
      outs := outs + [out];
    }
    assert ops[..|ops|] == ops;
  }

  /** Every run agrees, step by step, with the run over a plain map and with what its script, read backwards, says of
      each key; and every tree it passes through is one of the map at that point. It needs only that the trees it takes
      snapshots of do not collide. */
  method Run<V(!new), A(!new)>(c: Config<V, A>, cnt: A -> nat, ops: seq<Op<V>>) returns (outs: seq<Out<V>>)
    requires c.Lawful() && AllCan(c, cnt, ops)
    requires CollisionFree(c.env, SavedBlobs(c, After(c, ops).saved))
    ensures |outs| == |ops|
    ensures forall i :: 0 <= i < |ops| ==> outs[i] == Answer(c, After(c, ops[..i]).live, ops[i])
    ensures forall i :: 0 <= i < |ops| ==> Told(c, ops[..i], ops[i], outs[i])
    ensures forall i :: 0 <= i <= |ops| ==> Sound(c, After(c, ops[..i]).live)
  {
    hide After, Answer, Sound, Told;
    var _, answers := Play(c, cnt, ops);
    outs := answers;
    forall i | 0 <= i < |ops|
      ensures Told(c, ops[..i], ops[i], outs[i])
    {
      SoundBefore(c, ops, i);
      Tells(c, ops[..i], ops[i]);
    }
  }

  // ---- what one run says of another

  /** Two sessions with tries of the same map hold the same trie, with one root hash, however each came to it. */
  lemma HashOfTrie<V(!new), A(!new)>(s: Session<V, A>, t: Session<V, A>)
    requires s.Valid() && t.Valid() && s.c == t.c && !s.c.env.kind.Two3?
    requires s.live.contents == t.live.contents
    ensures s.live.tree == t.live.tree && Digest(s.c.env, s.live.tree) == Digest(t.c.env, t.live.tree)
  {
    Hamt.CanonicalUnique(s.c.env, s.c.keyHash, s.live.tree, t.live.tree, 0, s.live.contents);
  }

  /** The root hashes that two scripts of operations leave a trie with: they are equal whenever the maps are. */
  method HashesOfRuns<V(!new), A(!new)>(c: Config<V, A>, cnt: A -> nat, ops: seq<Op<V>>, ops': seq<Op<V>>)
    returns (d: Bytes, d': Bytes)
    requires c.Lawful() && !c.env.kind.Two3? && AllCan(c, cnt, ops) && AllCan(c, cnt, ops')
    requires CollisionFree(c.env, SavedBlobs(c, After(c, ops).saved))
    requires CollisionFree(c.env, SavedBlobs(c, After(c, ops').saved))
    ensures d == Digest(c.env, After(c, ops).live.ts) && d' == Digest(c.env, After(c, ops').live.ts)
    ensures After(c, ops).live.m == After(c, ops').live.m ==> d == d'
  {
    hide After, Answer, Sound, SavedBlobs, CollisionFree, AllCan;
    var s, _ := Play(c, cnt, ops);
    var t, _ := Play(c, cnt, ops');
    if s.live.contents == t.live.contents {
      HashOfTrie(s, t);
    }
    d := s.live.RootHash(c, s.store);
    d' := t.live.RootHash(c, t.store);
  }

  ghost predicate Alike<V(!new), A(!new), B(!new)>(s: State<V, A>, t: State<V, B>) {
    && s.live.m == t.live.m
    && |s.saved| == |t.saved|
    && forall i :: 0 <= i < |s.saved| ==> s.saved[i].m == t.saved[i].m
  }

  lemma {:induction false} StructuresAgree<V(!new), A(!new), B(!new)>(c: Config<V, A>, d: Config<V, B>, ops: seq<Op<V>>)
    requires forall op :: op in ops ==> !op.WriteValues?
    ensures Alike(After(c, ops), After(d, ops))
  {
    if ops != [] {
      var before, op := ops[..|ops| - 1], ops[|ops| - 1];
      assert forall o :: o in before ==> o in ops;
      assert op in ops;
      StructuresAgree(c, d, before);
    }
  }

  /** The same answer but for the order of a listing; hashes are not compared. */
  ghost predicate SameAnswer<V>(op: Op<V>, out: Out<V>, out': Out<V>) {
    match op
    case Values => out.Listed? && out'.Listed? && multiset(out.leaves) == multiset(out'.leaves)
    case Hash => out.Hashed? && out'.Hashed?
    case HashPersist => out.HashedTwice? && out'.HashedTwice?
    case _ => out == out'
  }

  lemma SoundAlike<V(!new), A(!new), B(!new)>(c: Config<V, A>, d: Config<V, B>, x: Held<V, A>, y: Held<V, B>, op: Op<V>)
    requires c.Lawful() && d.Lawful() && Sound(c, x) && Sound(d, y) && x.m == y.m
    ensures SameAnswer(op, Answer(c, x, op), Answer(d, y, op))
  {
    var h :| TreeOf(c, x.ts, h, x.m);
    var g :| TreeOf(d, y.ts, g, y.m);
    TreeLists(c, x.ts, h, x.m);
    TreeLists(d, y.ts, g, y.m);
    ListsAlike(Leaves(x.ts), Leaves(y.ts), x.m);
  }

  /** One script run on two of the structures: at every step both give the same answer. Left out are scripts that
      break a pass over the values off, as the structures list them in different orders. */
  method RunBoth<V(!new), A(!new), B(!new)>(c: Config<V, A>, cnt: A -> nat, d: Config<V, B>, cnt': B -> nat,
      ops: seq<Op<V>>)
    returns (outs: seq<Out<V>>, outs': seq<Out<V>>)
    requires c.Lawful() && AllCan(c, cnt, ops) && CollisionFree(c.env, SavedBlobs(c, After(c, ops).saved))
    requires d.Lawful() && AllCan(d, cnt', ops) && CollisionFree(d.env, SavedBlobs(d, After(d, ops).saved))
    requires forall op :: op in ops ==> !op.WriteValues?
    ensures |outs| == |outs'| == |ops|
    ensures forall i :: 0 <= i < |ops| ==> SameAnswer(ops[i], outs[i], outs'[i])
  {
    hide After, Answer, Sound, SavedBlobs, CollisionFree, AllCan, SameAnswer;
    outs := Run(c, cnt, ops);
    outs' := Run(d, cnt', ops);
    forall i | 0 <= i < |ops|
      ensures SameAnswer(ops[i], outs[i], outs'[i])
    {
      StructuresAgree(c, d, ops[..i]);
      SoundAlike(c, d, After(c, ops[..i]).live, After(d, ops[..i]).live, ops[i]);
    }
  }
}
