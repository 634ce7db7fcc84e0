/** kernel/bio.c: the doubly linked list of buffers, and why recycling its tail is recycling the least recently
    released buffer. */
module BufferCache {
  import opened Blocks
  import M = StorageMachine

  const NBUF: nat := 30
  const HEAD: nat := NBUF  // &bcache.head; buffers are 0 .. NBUF - 1

  datatype Key = Key(dev: nat, blockno: nat)

  /** order lists the buffers from most to least recent.  stamp is history: when each buffer was last
      released to zero references (for a buffer never released, when binit linked it). */
  datatype Lru = Lru(keys: seq<Key>, refs: seq<nat>, order: seq<nat>, stamp: seq<nat>, clock: nat)

  ghost predicate Permutation(order: seq<nat>) {
    && |order| == NBUF && Distinct(order)
    && (forall i :: 0 <= i < NBUF ==> order[i] < NBUF)
    && forall b: nat :: b < NBUF ==> b in order
  }

  /** Earlier in the order means released later. */
  ghost predicate Recent(order: seq<nat>, stamp: seq<nat>)
    requires |stamp| == NBUF && Permutation(order)
  {
    forall i, j :: 0 <= i < j < NBUF ==> stamp[order[i]] > stamp[order[j]]
  }

  ghost predicate LruOk(c: Lru) {
    && |c.keys| == |c.refs| == |c.stamp| == NBUF
    && Permutation(c.order) && Recent(c.order, c.stamp)
    && (forall b :: 0 <= b < NBUF ==> c.stamp[b] < c.clock)
    && forall a, b :: 0 <= a < b < NBUF && c.keys[a] == c.keys[b] ==> c.keys[a].dev == 0
  }

  /** Position of the first buffer holding k, or |order|. */
  function Scan(c: Lru, k: Key, i: nat): (r: nat)
    requires |c.keys| == NBUF && i <= |c.order| && forall j :: 0 <= j < |c.order| ==> c.order[j] < NBUF
    ensures i <= r <= |c.order|
    ensures r < |c.order| ==> c.keys[c.order[r]] == k
    ensures forall j :: i <= j < r ==> c.keys[c.order[j]] != k
    decreases |c.order| - i
  {
    if i == |c.order| || c.keys[c.order[i]] == k then i else Scan(c, k, i + 1)
  }

  /** Position of the last of the first n buffers without references, or -1. */
  function ScanBack(c: Lru, n: nat): (r: int)
    requires |c.refs| == NBUF && n <= |c.order| && forall j :: 0 <= j < |c.order| ==> c.order[j] < NBUF
    ensures -1 <= r < n
    ensures r >= 0 ==> c.refs[c.order[r]] == 0
    ensures forall j :: r < j < n ==> c.refs[c.order[j]] > 0
  {
    if n == 0 then -1 else if c.refs[c.order[n - 1]] == 0 then n - 1 else ScanBack(c, n - 1)
  }

  function SetRefs(c: Lru, b: nat, n: nat): Lru
    requires b < |c.refs|
  {
    c.(refs := c.refs[b := n])
  }

  /** bget: the new state, and the buffer, or None for the panic. */
  function Get(c: Lru, k: Key): (r: (Lru, Option<nat>))
    requires |c.keys| == |c.refs| == NBUF && forall j :: 0 <= j < |c.order| ==> c.order[j] < NBUF
  {
    var hit := Scan(c, k, 0);
    if hit < |c.order| then
      var b := c.order[hit];
      (SetRefs(c, b, c.refs[b] + 1), Some(b))
    else
      var free := ScanBack(c, |c.order|);
      if free < 0 then (c, None)
      else
        var b := c.order[free];
        (SetRefs(c, b, 1).(keys := c.keys[b := k]), Some(b))
  }

  function Remove(order: seq<nat>, b: nat): seq<nat> {
    if order == [] then [] else if order[0] == b then order[1..] else [order[0]] + Remove(order[1..], b)
  }

  /** brelse. */
  function Release(c: Lru, b: nat): Lru
    requires b < |c.refs| && b < |c.stamp| && c.refs[b] > 0
  {
    if c.refs[b] > 1 then SetRefs(c, b, c.refs[b] - 1)
    else Lru(c.keys, c.refs[b := 0], [b] + Remove(c.order, b), c.stamp[b := c.clock], c.clock + 1)
  }

  // ----- what the order means -----

  lemma Shifted(order: seq<nat>, k: nat)
    requires 0 < k < |order|
    ensures [order[0]] + (order[1..][..k - 1] + order[1..][k..]) == order[..k] + order[k + 1..]
  {
  }

  lemma {:induction false} Removed(order: seq<nat>, k: nat)
    requires k < |order| && Distinct(order)
    ensures Remove(order, order[k]) == order[..k] + order[k + 1..]
  {
    if k > 0 {
      var rest := order[1..];
      assert order[0] != order[k] && rest[k - 1] == order[k];
      Removed(rest, k - 1);
      Shifted(order, k);
    }
  }

  lemma MovedToFront(order: seq<nat>, k: nat)
    requires Permutation(order) && k < NBUF
    ensures Permutation([order[k]] + order[..k] + order[k + 1..])
  {
    var moved := [order[k]] + order[..k] + order[k + 1..];
    forall b: nat | b < NBUF ensures b in moved {
      var i := Index(order, b);
      if i < k {
        assert moved[i + 1] == b;
      } else if i > k {
        assert moved[i] == b;
      }
    }
  }

  lemma RestampedFront(order: seq<nat>, stamp: seq<nat>, k: nat, clock: nat)
    requires |stamp| == NBUF && Permutation(order) && Recent(order, stamp) && k < NBUF
    requires forall b :: 0 <= b < NBUF ==> stamp[b] < clock
    ensures var moved := [order[k]] + order[..k] + order[k + 1..];
            Permutation(moved) && Recent(moved, stamp[order[k] := clock])
  {
    MovedToFront(order, k);
    var moved, stamp' := [order[k]] + order[..k] + order[k + 1..], stamp[order[k] := clock];
    forall i, j | 0 <= i < j < NBUF ensures stamp'[moved[i]] > stamp'[moved[j]] {
      assert moved[j] == if j <= k then order[j - 1] else order[j];
      assert i > 0 ==> moved[i] == if i <= k then order[i - 1] else order[i];
    }
  }

  /** The last release puts the buffer in front of the others, which keep their order; any other leaves the list
      alone. */
  lemma ReleaseKeeps(c: Lru, b: nat)
    requires LruOk(c) && b < NBUF && c.refs[b] > 0
    ensures LruOk(Release(c, b)) && Release(c, b).keys == c.keys && Release(c, b).refs == c.refs[b := c.refs[b] - 1]
    ensures c.refs[b] > 1 ==> Release(c, b).order == c.order
    ensures c.refs[b] == 1 ==> MovedFirst(c.order, Release(c, b).order, b)
  {
    hide Recent, Permutation, Remove, Distinct, MovedFirst;
    if c.refs[b] == 1 {
      var k := InOrder(c.order, b);
      Removed(c.order, k);
      RestampedFront(c.order, c.stamp, k, c.clock);
      assert [b] + (c.order[..k] + c.order[k + 1..]) == [b] + c.order[..k] + c.order[k + 1..];
      IsFirst(c.order, b, k);
    }
  }

  lemma InOrder(order: seq<nat>, b: nat) returns (k: nat)
    requires Permutation(order) && b < NBUF
    ensures k < |order| == NBUF && order[k] == b && Distinct(order)
  {
    k := Index(order, b);
  }

  lemma IsFirst(order: seq<nat>, b: nat, k: nat)
    requires k < |order| && order[k] == b
    ensures MovedFirst(order, [b] + order[..k] + order[k + 1..], b)
  {
    assert PlaceOf(order, b, k);
  }

  ghost predicate PlaceOf(order: seq<nat>, b: nat, k: nat) { k < |order| && order[k] == b }

  /** b has been taken from its place to the front; the others stand in the order in which they stood. */
  ghost predicate MovedFirst(was: seq<nat>, now: seq<nat>, b: nat) {
    exists k: nat :: PlaceOf(was, b, k) && now == [b] + was[..k] + was[k + 1..]
  }

  /** bget keeps at most one buffer per block of a real device, never takes a buffer in use, and fails only
      when every buffer is in use. */
  lemma GetKeeps(c: Lru, k: Key)
    requires LruOk(c)
    ensures LruOk(Get(c, k).0)
    ensures Get(c, k).1.None? <==> (forall b :: 0 <= b < NBUF ==> c.keys[b] != k && c.refs[b] > 0)
    ensures Get(c, k).1.Some? ==> var b := Get(c, k).1.value;
              && b < NBUF && Get(c, k).0.keys[b] == k && Get(c, k).0.refs[b] > 0
              && (c.keys[b] == k || (c.refs[b] == 0 && forall a :: 0 <= a < NBUF ==> c.keys[a] != k))
  {
    var hit := Scan(c, k, 0);
    if hit == NBUF {
      forall b | 0 <= b < NBUF ensures c.keys[b] != k {
        assert c.order[Index(c.order, b)] == b;
      }
      if ScanBack(c, NBUF) < 0 {
        forall b | 0 <= b < NBUF ensures c.refs[b] > 0 {
          assert c.order[Index(c.order, b)] == b;
        }
      }
    }
  }

  /** Of the buffers without references, bget recycles the one released longest ago. */
  lemma VictimIsOldest(c: Lru, k: Key)
    requires LruOk(c) && Get(c, k).1.Some? && c.keys[Get(c, k).1.value] != k
    ensures var b := Get(c, k).1.value;
            forall a :: 0 <= a < NBUF && a != b && c.refs[a] == 0 ==> c.stamp[b] < c.stamp[a]
  {
    VictimByAge(c, k, c.stamp);
  }

  // ----- runs -----

  /** The calls of kernel/bio.c, in the order in which they take bcache.lock. */
  datatype Event = Got(k: Key) | Released(b: nat) | Pinned(b: nat) | Unpinned(b: nat)

  ghost predicate Does(c: Lru, c': Lru, e: Event) {
    && LruOk(c)
    && match e
       case Got(k) => Get(c, k).1.Some? && c' == Get(c, k).0
       case Released(b) => b < NBUF && c.refs[b] > 0 && c' == Release(c, b)
       case Pinned(b) => b < NBUF && c' == SetRefs(c, b, c.refs[b] + 1)
       case Unpinned(b) => b < NBUF && c.refs[b] > 0 && c' == SetRefs(c, b, c.refs[b] - 1)
  }

  /** As binit leaves the list. */
  ghost predicate Booted(c: Lru) {
    LruOk(c) && forall i :: 0 <= i < NBUF ==> c.refs[i] == 0 && c.order[i] == NBUF - 1 - i
  }

  ghost predicate Ran(t: seq<Lru>, es: seq<Event>) {
    |t| == |es| + 1 && Booted(t[0]) && forall i :: 0 <= i < |es| ==> Does(t[i], t[i + 1], es[i])
  }

  /** Event i is a brelse that brought the references of b to zero. */
  ghost predicate Freed(t: seq<Lru>, es: seq<Event>, i: nat, b: nat) {
    i < |es| && i < |t| && es[i] == Released(b) && b < |t[i].refs| && t[i].refs[b] == 1
  }

  /** When, among the first k events, b was last freed, counting from NBUF on; b if it never was, since binit puts the
      buffers with smaller numbers further back. */
  ghost function FreedAt(t: seq<Lru>, es: seq<Event>, k: nat, b: nat): (r: nat)
    requires b < NBUF
    ensures if r < NBUF then r == b && forall i :: 0 <= i < k ==> !Freed(t, es, i, b)
            else r < NBUF + k && Freed(t, es, r - NBUF, b) && forall i :: r - NBUF < i < k ==> !Freed(t, es, i, b)
  {
    if k == 0 then b else if Freed(t, es, k - 1, b) then NBUF + k - 1 else FreedAt(t, es, k - 1, b)
  }

  ghost function Ages(t: seq<Lru>, es: seq<Event>, k: nat): (r: seq<nat>)
    ensures |r| == NBUF && forall b :: 0 <= b < NBUF ==> r[b] == FreedAt(t, es, k, b)
  {
    seq(NBUF, b requires 0 <= b < NBUF => FreedAt(t, es, k, b))
  }

  lemma AgesFreed(t: seq<Lru>, es: seq<Event>, k: nat, b: nat)
    requires 0 < k <= |es| && b < NBUF && Freed(t, es, k - 1, b)
    ensures Ages(t, es, k) == Ages(t, es, k - 1)[b := NBUF + k - 1]
  {
  }

  lemma AgesSame(t: seq<Lru>, es: seq<Event>, k: nat)
    requires 0 < k <= |es| && (es[k - 1].Released? ==> !Freed(t, es, k - 1, es[k - 1].b))
    ensures Ages(t, es, k) == Ages(t, es, k - 1)
  {
    forall b: nat | b < NBUF ensures FreedAt(t, es, k, b) == FreedAt(t, es, k - 1, b) {
      assert !Freed(t, es, k - 1, b);
    }
  }

  lemma DoesKeeps(c: Lru, c': Lru, e: Event)
    requires Does(c, c', e)
    ensures LruOk(c')
    ensures if e.Released? && c.refs[e.b] == 1 then MovedFirst(c.order, c'.order, e.b) else c'.order == c.order
  {
    match e
    case Got(k) => GetKeeps(c, k);
    case Released(b) => ReleaseKeeps(c, b);
    case _ =>
  }

  lemma {:induction false} RunOk(t: seq<Lru>, es: seq<Event>, k: nat)
    requires Ran(t, es) && k < |t|
    ensures LruOk(t[k])
  {
    hide LruOk, Booted, Does;
    if k == 0 {
      assert LruOk(t[0]) by { StartsOk(t[0]); }
    } else {
      DoesKeeps(t[k - 1], t[k], es[k - 1]);
    }
  }

  lemma StartsOk(c: Lru)
    requires Booted(c)
    ensures LruOk(c)
  {
  }

  /** The list is sorted by the time of the last release, the latest first. */
  lemma {:induction false} OrderIsAge(t: seq<Lru>, es: seq<Event>, k: nat)
    requires Ran(t, es) && k < |t|
    ensures Permutation(t[k].order) && Recent(t[k].order, Ages(t, es, k))
  {
    hide Does, FreedAt, Freed;
    RunOk(t, es, k);
    if k == 0 {
      StartsByAge(t, es);
    } else {
      OrderIsAge(t, es, k - 1);
      RunOk(t, es, k - 1);
      AgeStep(t, es, k);
    }
  }

  lemma StartsByAge(t: seq<Lru>, es: seq<Event>)
    requires |t| > 0 && Booted(t[0])
    ensures Recent(t[0].order, Ages(t, es, 0))
  {
  }

  lemma AgeStep(t: seq<Lru>, es: seq<Event>, k: nat)
    requires 0 < k <= |es| && k < |t| && Does(t[k - 1], t[k], es[k - 1]) && LruOk(t[k - 1]) && LruOk(t[k])
    requires Recent(t[k - 1].order, Ages(t, es, k - 1))
    ensures Recent(t[k].order, Ages(t, es, k))
  {
    hide Get, Release, Ages, Recent, FreedAt;
    DoesKeeps(t[k - 1], t[k], es[k - 1]);
    var e, was, now := es[k - 1], t[k - 1].order, t[k].order;
    if e.Released? && t[k - 1].refs[e.b] == 1 {
      AgesFreed(t, es, k, e.b);
      var p: nat :| PlaceOf(was, e.b, p) && now == [e.b] + was[..p] + was[p + 1..];
      AgesBelow(t, es, k - 1);
      RestampedFront(was, Ages(t, es, k - 1), p, NBUF + k - 1);
    } else {
      AgesSame(t, es, k);
    }
  }

  lemma AgesBelow(t: seq<Lru>, es: seq<Event>, k: nat)
    ensures forall b :: 0 <= b < NBUF ==> Ages(t, es, k)[b] < NBUF + k
  {
  }

  /** Over every run from binit: the buffer that bget recycles is, of the unreferenced ones, the one whose last release
      lies furthest back, and those never released come before all others, in the order of binit. */
  lemma LeastRecentlyReleased(t: seq<Lru>, es: seq<Event>, n: nat, k: Key)
    requires Ran(t, es) && n < |t| && LruOk(t[n])
    requires Get(t[n], k).1.Some? && t[n].keys[Get(t[n], k).1.value] != k
    ensures var b := Get(t[n], k).1.value;
            && b < NBUF && t[n].refs[b] == 0
            && forall a :: 0 <= a < NBUF && a != b && t[n].refs[a] == 0 ==> FreedAt(t, es, n, b) < FreedAt(t, es, n, a)
  {
    hide Ran, FreedAt, Recent;
    var c := t[n];
    GetKeeps(c, k);
    OrderIsAge(t, es, n);
    VictimByAge(c, k, Ages(t, es, n));
  }

  lemma VictimByAge(c: Lru, k: Key, age: seq<nat>)
    requires LruOk(c) && |age| == NBUF && Recent(c.order, age)
    requires Get(c, k).1.Some? && c.keys[Get(c, k).1.value] != k
    ensures var b := Get(c, k).1.value;
            forall a :: 0 <= a < NBUF && a != b && c.refs[a] == 0 ==> age[b] < age[a]
  {
    var r := ScanBack(c, NBUF);
    forall a | 0 <= a < NBUF && a != c.order[r] && c.refs[a] == 0 ensures age[c.order[r]] < age[a] {
      assert a in c.order;
    }
  }

  // ----- the cache of StorageMachine -----

  /** The fields of struct buf beside its key and reference count, with the history StorageMachine keeps. */
  datatype Buf = Buf(valid: bool, data: Block, users: multiset<M.Pid>, owner: Option<M.Pid>, dirty: bool)

  function EntryOf(refs: nat, x: Buf): M.Entry {
    M.Entry(x.valid, refs, x.data, x.users, x.owner, x.dirty)
  }

  ghost predicate Fits(c: Lru, bufs: seq<Buf>, dev: nat) {
    LruOk(c) && |bufs| == NBUF && dev != 0
  }

  /** The blocks of device dev that are cached. */
  ghost function View(c: Lru, bufs: seq<Buf>, dev: nat): map<nat, M.Entry>
    requires Fits(c, bufs, dev)
  {
    map b | 0 <= b < NBUF && c.keys[b].dev == dev :: c.keys[b].blockno := EntryOf(c.refs[b], bufs[b])
  }

  lemma Shown(c: Lru, bufs: seq<Buf>, dev: nat, b: nat)
    requires Fits(c, bufs, dev) && b < NBUF && c.keys[b].dev == dev
    ensures c.keys[b].blockno in View(c, bufs, dev)
    ensures View(c, bufs, dev)[c.keys[b].blockno] == EntryOf(c.refs[b], bufs[b])
  {
  }

  lemma Holder(c: Lru, bufs: seq<Buf>, dev: nat, n: nat) returns (b: nat)
    requires Fits(c, bufs, dev) && n in View(c, bufs, dev)
    ensures b < NBUF && c.keys[b] == Key(dev, n) && View(c, bufs, dev)[n] == EntryOf(c.refs[b], bufs[b])
  {
    b :| b < NBUF && c.keys[b] == Key(dev, n);
    Shown(c, bufs, dev, b);
  }

  lemma OneHolder(c: Lru, a: nat, b: nat)
    requires LruOk(c) && a < NBUF && b < NBUF && a != b && c.keys[a] == c.keys[b]
    ensures c.keys[a].dev == 0
  {
  }

  lemma Sized(c: Lru)
    requires LruOk(c)
    ensures |c.keys| == |c.refs| == |c.stamp| == |c.order| == NBUF
  {
  }

  /** A change to one buffer that keeps its key is a change to one entry, wherever the buffer is in the list. */
  lemma OneEntry(c: Lru, c': Lru, bufs: seq<Buf>, dev: nat, b: nat, r: nat, x: Buf)
    requires Fits(c, bufs, dev) && LruOk(c') && b < NBUF && c.keys[b].dev == dev
    requires c'.keys == c.keys && c'.refs == c.refs[b := r]
    ensures View(c', bufs[b := x], dev) == View(c, bufs, dev)[c.keys[b].blockno := EntryOf(r, x)]
  {
    hide LruOk, View;
    Sized(c);
    var bufs' := bufs[b := x];
    var m, m' := View(c, bufs, dev), View(c', bufs', dev);
    forall y | y in m ensures y in m' && (y != c.keys[b].blockno ==> m'[y] == m[y]) {
      var a := Holder(c, bufs, dev, y);
      Shown(c', bufs', dev, a);
    }
    forall y | y in m' ensures y in m {
      var a := Holder(c', bufs', dev, y);
      Shown(c, bufs, dev, a);
    }
    Shown(c, bufs, dev, b);
    Shown(c', bufs', dev, b);
  }

  /** Giving a buffer to another block drops the block it held. */
  lemma OtherBlock(c: Lru, c': Lru, bufs: seq<Buf>, dev: nat, n: nat, b: nat, v: nat, x: Buf)
    requires Fits(c, bufs, dev) && LruOk(c') && b < NBUF
    requires forall a :: 0 <= a < NBUF ==> c.keys[a] != Key(dev, n)
    requires c'.keys == c.keys[b := Key(dev, n)] && c'.refs == c.refs[b := 1]
    requires v == if c.keys[b].dev == dev then c.keys[b].blockno else n
    ensures v in View(c, bufs, dev) ==> View(c, bufs, dev)[v].refcnt == c.refs[b]
    ensures View(c', bufs[b := x], dev) == (View(c, bufs, dev) - {v})[n := EntryOf(1, x)]
  {
    hide LruOk, View;
    Sized(c);
    var bufs' := bufs[b := x];
    var m, m' := View(c, bufs, dev), View(c', bufs', dev);
    if v in m {
      var a := Holder(c, bufs, dev, v);
      if a != b {
        OneHolder(c, a, b);
      }
    }
    forall y | y in m' && y != n ensures y in m && y != v && m'[y] == m[y] {
      var a := Holder(c', bufs', dev, y);
      Shown(c, bufs, dev, a);
      if y == v {
        OneHolder(c, a, b);
      }
    }
    forall y | y in m && y != v ensures y in m' {
      var a := Holder(c, bufs, dev, y);
      Shown(c', bufs', dev, a);
    }
    Shown(c', bufs', dev, b);
  }

  lemma MissedBefore(c: Lru, bufs: seq<Buf>, dev: nat, n: nat)
    requires Fits(c, bufs, dev) && forall a :: 0 <= a < NBUF ==> c.keys[a] != Key(dev, n)
    ensures n !in View(c, bufs, dev)
  {
  }

  /** bget for process p: a found buffer gets a user, a recycled one starts over with stale data. */
  function Got(c: Lru, bufs: seq<Buf>, k: Key, p: M.Pid, b: nat): seq<Buf>
    requires |c.keys| == |bufs| == NBUF && b < NBUF
  {
    if c.keys[b] == k then bufs[b := bufs[b].(users := bufs[b].users + multiset{p})]
    else bufs[b := Buf(false, bufs[b].data, multiset{p}, None, false)]
  }

  /** Seen from one device, bget is a Hit or a Miss. */
  lemma GetRefinesMachine(s: M.State, c: Lru, bufs: seq<Buf>, dev: nat, n: nat, p: M.Pid) returns (v: nat)
    requires Fits(c, bufs, dev) && s.cache == View(c, bufs, dev) && n in s.disk
    requires Get(c, Key(dev, n)).1.Some?
    ensures var (c', r) := Get(c, Key(dev, n));
            && LruOk(c') && r.value < NBUF
            && var s' := s.(cache := View(c', Got(c, bufs, Key(dev, n), p, r.value), dev));
               if n in s.cache then M.Hit(s, s', p, n) else M.Miss(s, s', p, n, v, bufs[r.value].data)
  {
    hide View;
    GetKeeps(c, Key(dev, n));
    var (c', r) := Get(c, Key(dev, n));
    var b := r.value;
    v := if c.keys[b].dev == dev then c.keys[b].blockno else n;
    if c.keys[b] == Key(dev, n) {
      OneEntry(c, c', bufs, dev, b, c.refs[b] + 1, bufs[b].(users := bufs[b].users + multiset{p}));
      Shown(c, bufs, dev, b);
    } else {
      OtherBlock(c, c', bufs, dev, n, b, v, Buf(false, bufs[b].data, multiset{p}, None, false));
      MissedBefore(c, bufs, dev, n);
    }
  }

  /** The end of brelse by process p, which has released the sleep-lock, is a Deref. */
  lemma ReleaseRefinesMachine(s: M.State, c: Lru, bufs: seq<Buf>, dev: nat, b: nat, p: M.Pid)
    requires Fits(c, bufs, dev) && s.cache == View(c, bufs, dev) && b < NBUF && c.keys[b].dev == dev
    requires c.refs[b] > 0 && p in bufs[b].users && bufs[b].owner != Some(p)
    ensures LruOk(Release(c, b))
    ensures var bufs' := bufs[b := bufs[b].(users := bufs[b].users - multiset{p})];
            M.Deref(s, s.(cache := View(Release(c, b), bufs', dev)), p, c.keys[b].blockno)
  {
    ReleaseKeeps(c, b);
    hide LruOk, View;
    Sized(c);
    Shown(c, bufs, dev, b);
    OneEntry(c, Release(c, b), bufs, dev, b, c.refs[b] - 1, bufs[b].(users := bufs[b].users - multiset{p}));
  }

  /** bpin is what log_write does to the cache when it adds an entry. */
  lemma PinRefinesMachine(s: M.State, s': M.State, c: Lru, bufs: seq<Buf>, dev: nat, b: nat, p: M.Pid)
    requires Fits(c, bufs, dev) && s.cache == View(c, bufs, dev) && b < NBUF && c.keys[b].dev == dev
    requires M.LogWrite(s, s', p, c.keys[b].blockno) && c.keys[b].blockno !in s.hdr
    ensures LruOk(SetRefs(c, b, c.refs[b] + 1))
    ensures s'.cache == View(SetRefs(c, b, c.refs[b] + 1), bufs[b := bufs[b].(dirty := false)], dev)
  {
    hide View;
    Shown(c, bufs, dev, b);
    OneEntry(c, SetRefs(c, b, c.refs[b] + 1), bufs, dev, b, c.refs[b] + 1, bufs[b].(dirty := false));
  }

  /** bunpin is what install_trans does to the cache after a commit, beside the copy. */
  lemma UnpinRefinesMachine(s: M.State, s': M.State, c: Lru, bufs: seq<Buf>, dev: nat, b: nat, p: M.Pid)
    requires Fits(c, bufs, dev) && s.cache == View(c, bufs, dev) && b < NBUF && c.keys[b].dev == dev
    requires M.Install(s, s', p) && !s.phase.recovering && s.hdr[s.phase.tail] == c.keys[b].blockno
    ensures c.refs[b] > 0 && LruOk(SetRefs(c, b, c.refs[b] - 1))
    ensures var data := s.cache[s.geo.Slot(s.phase.tail)].data;
            s'.cache == View(SetRefs(c, b, c.refs[b] - 1), bufs[b := bufs[b].(data := data)], dev)
  {
    hide View;
    Shown(c, bufs, dev, b);
    var data := s.cache[s.geo.Slot(s.phase.tail)].data;
    OneEntry(c, SetRefs(c, b, c.refs[b] - 1), bufs, dev, b, c.refs[b] - 1, bufs[b].(data := data));
  }

  // ----- the linked list -----

  function At(order: seq<nat>, i: int): nat {
    if 0 <= i < |order| then order[i] else HEAD
  }

  /** next and prev form one cycle: head, order[0], .., order[last], head. */
  ghost predicate Ring(prev: seq<nat>, next: seq<nat>, order: seq<nat>) {
    && |prev| == |next| == NBUF + 1
    && Distinct(order) && (forall i :: 0 <= i < |order| ==> order[i] < NBUF)
    && forall i :: -1 <= i < |order| ==>
         next[At(order, i)] == At(order, i + 1) && prev[At(order, i + 1)] == At(order, i)
  }

  /** The two assignments that take order[k] out of the list. */
  lemma Unlinked(prev: seq<nat>, next: seq<nat>, order: seq<nat>, k: nat)
    requires Ring(prev, next, order) && k < |order|
    ensures var b := order[k];
            && |prev| == |next| == NBUF + 1 && b < NBUF && next[b] <= NBUF && prev[b] <= NBUF
            && Ring(prev[next[b] := prev[b]], next[prev[b] := next[b]], order[..k] + order[k + 1..])
  {
    var b := order[k];
    assert At(order, k) == b && next[b] == At(order, k + 1) && prev[b] == At(order, k - 1) by {
      assert next[At(order, k)] == At(order, k + 1);
      assert prev[At(order, (k - 1) + 1)] == At(order, k - 1);
    }
    var prev', next' := prev[next[b] := prev[b]], next[prev[b] := next[b]];
    var rest := order[..k] + order[k + 1..];
    assert forall i: int :: At(rest, i) <= HEAD;
    forall i | -1 <= i < |rest|
      ensures next'[At(rest, i)] == At(rest, i + 1) && prev'[At(rest, i + 1)] == At(rest, i)
    {
      var from, to := if i < k then i else i + 1, if i + 1 < k then i + 1 else i + 2;
      assert At(rest, i) == At(order, from) && At(rest, i + 1) == At(order, to);
      assert next[At(order, from)] == At(order, from + 1) && prev[At(order, to - 1 + 1)] == At(order, to - 1);
    }
  }

  /** Where b is in the list, and the list without it. */
  lemma Place(c: Lru, b: nat) returns (k: nat)
    requires LruOk(c) && b < NBUF
    ensures k < |c.order| && c.order[k] == b && b !in Remove(c.order, b)
    ensures Remove(c.order, b) == c.order[..k] + c.order[k + 1..]
  {
    k := Index(c.order, b);
    Removed(c.order, k);
  }

  /** The four assignments that put b right after the head. */
  lemma Pushed(prev: seq<nat>, next: seq<nat>, order: seq<nat>, b: nat)
    requires Ring(prev, next, order) && b < NBUF && b !in order
    ensures next[HEAD] <= NBUF
    ensures Ring(prev[b := HEAD][next[HEAD] := b], next[b := next[HEAD]][HEAD := b], [b] + order)
  {
    assert next[At(order, -1)] == At(order, 0);
    var prev', next', order' := prev[b := HEAD][next[HEAD] := b], next[b := next[HEAD]][HEAD := b], [b] + order;
    forall i | -1 <= i < |order'|
      ensures next'[At(order', i)] == At(order', i + 1) && prev'[At(order', i + 1)] == At(order', i)
    {
      assert At(order', i + 1) == At(order, i) || i == -1;
      if i >= 1 {
        assert At(order', i) == At(order, i - 1);
        assert next[At(order, i - 1)] == At(order, i) && prev[At(order, i)] == At(order, i - 1);
      }
    }
  }

  /** struct bcache: the fields of buffer i at index i, the links of the head at index HEAD. */
  class Cache {
    var prev: seq<nat>
    var next: seq<nat>
    var keys: seq<Key>     // dev and blockno
    var refs: seq<nat>     // refcnt
    var valid: seq<bool>
    ghost var order: seq<nat>
    ghost var stamp: seq<nat>
    ghost var clock: nat

    ghost function Abs(): Lru
      reads this
    {
      Lru(keys, refs, order, stamp, clock)
    }

    ghost predicate Valid()
      reads this
    {
      Ring(prev, next, order) && LruOk(Abs()) && |valid| == NBUF
    }

    /** binit: the list ends up in reverse array order, every buffer free. */
    constructor ()
      ensures Valid()
      ensures forall b :: 0 <= b < NBUF ==> keys[b] == Key(0, 0) && refs[b] == 0 && !valid[b]
      ensures forall i :: 0 <= i < NBUF ==> order[i] == NBUF - 1 - i
    {
      keys := seq(NBUF, _ => Key(0, 0));
      refs := seq(NBUF, _ => 0);
      valid := seq(NBUF, _ => false);
      stamp, clock := seq(NBUF, i => i), NBUF;
      prev, next := seq(NBUF + 1, _ => HEAD), seq(NBUF + 1, _ => HEAD);
      order := [];
      new;
      for b := 0 to NBUF
        invariant Ring(prev, next, order) && |order| == b
        invariant forall i :: 0 <= i < b ==> order[i] == b - 1 - i
        invariant keys == seq(NBUF, _ => Key(0, 0)) && refs == seq(NBUF, _ => 0) && valid == seq(NBUF, _ => false)
        invariant stamp == seq(NBUF, i => i) && clock == NBUF
      {
        PushFront(b);
      }
      forall b: nat | b < NBUF ensures b in order {
        assert order[NBUF - 1 - b] == b;
      }
    }

    method PushFront(b: nat)
      requires Ring(prev, next, order) && b < NBUF && b !in order
      modifies this`prev, this`next, this`order
      ensures Ring(prev, next, order) && order == [b] + old(order)
    {
      Pushed(prev, next, order, b);
      next := next[b := next[HEAD]];
      prev := prev[b := HEAD];
      prev := prev[next[HEAD] := b];
      next := next[HEAD := b];
      order := [b] + order;
    }

    /** bget, up to acquiring the buffer's sleep-lock. */
    method Bget(dev: nat, blockno: nat) returns (r: Option<nat>)
      requires Valid()
      modifies this`keys, this`refs, this`valid
      ensures Valid() && (Abs(), r) == Get(old(Abs()), Key(dev, blockno))
      ensures r.Some? ==> r.value < NBUF && valid == if old(keys)[r.value] == Key(dev, blockno)
                                                      then old(valid) else old(valid)[r.value := false]
    {
      hide LruOk;
      ghost var c := Abs();
      var k := Key(dev, blockno);
      GetKeeps(c, k);
      Sized(c);
      var b := next[HEAD];
      ghost var i := 0;
      assert next[At(order, -1)] == At(order, 0);
      while b != HEAD
        invariant 0 <= i <= NBUF && b == At(order, i)
        invariant Scan(c, k, 0) == Scan(c, k, i)
        decreases NBUF - i
      {
        if keys[b] == k {
          refs := refs[b := refs[b] + 1];
          return Some(b);
        }
        assert next[At(order, i)] == At(order, i + 1);
        b := next[b];
        i := i + 1;
      }
      b := prev[HEAD];
      i := NBUF - 1;
      assert prev[At(order, i + 1)] == At(order, i);
      while b != HEAD
        invariant -1 <= i < NBUF && b == At(order, i)
        invariant ScanBack(c, NBUF) == ScanBack(c, i + 1)
        decreases i
      {
        if refs[b] == 0 {
          keys := keys[b := k];
          valid := valid[b := false];
          refs := refs[b := 1];
          return Some(b);
        }
        assert prev[At(order, (i - 1) + 1)] == At(order, i - 1);
        b := prev[b];
        i := i - 1;
      }
      return None;
    }

    /** brelse, after releasing the sleep-lock. */
    method Brelse(b: nat)
      requires Valid() && b < NBUF && refs[b] > 0
      modifies this`refs, this`prev, this`next, this`order, this`stamp, this`clock
      ensures Valid() && Abs() == Release(old(Abs()), b)
    {
      hide LruOk, Ring, Remove;
      ReleaseKeeps(Abs(), b);
      Sized(Abs());
      ghost var k := Place(Abs(), b);
      refs := refs[b := refs[b] - 1];
      if refs[b] == 0 {
        Unlinked(prev, next, order, k);
        prev := prev[next[b] := prev[b]];
        next := next[prev[b] := next[b]];
        order := Remove(order, b);
        stamp, clock := stamp[b := clock], clock + 1;
        PushFront(b);
      }
    }

    method Bpin(b: nat)
      requires Valid() && b < NBUF
      modifies this`refs
      ensures Valid() && Abs() == SetRefs(old(Abs()), b, old(refs)[b] + 1)
    {
      refs := refs[b := refs[b] + 1];
    }

    method Bunpin(b: nat)
      requires Valid() && b < NBUF && refs[b] > 0
      modifies this`refs
      ensures Valid() && Abs() == SetRefs(old(Abs()), b, old(refs)[b] - 1)
    {
      refs := refs[b := refs[b] - 1];
    }
  }
}
