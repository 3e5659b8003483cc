/**
 The decoded-frame cache: entries by source and frame, a recency list, a byte
 budget, and a lookup of the nearest frame of a source.
 */
module FrameCache {
  import opened Options
  import opened Sequences

  type SourceId = nat

  /** Keys are ordered by source, then by frame. */
  datatype Key = Key(source: SourceId, frame: int)
  {
    predicate Before(other: Key) {
      source < other.source || (source == other.source && frame < other.frame)
    }
  }

  /** A retained frame and the bytes its buffers take. */
  datatype Frame = Frame(handle: nat, bytes: nat)

  datatype Window = Window(ahead: nat, behind: nat, total: nat)

  // ---- The recency list -------------------------------------------------------------

  function NotOf(keys: seq<Key>, source: SourceId): seq<Key> {
    if keys == [] then []
    else if keys[0].source == source then NotOf(keys[1..], source)
    else [keys[0]] + NotOf(keys[1..], source)
  }

  ghost predicate Within(entries: map<Key, Frame>, keys: seq<Key>) {
    forall i :: 0 <= i < |keys| ==> keys[i] in entries
  }

  ghost function Bytes(entries: map<Key, Frame>, keys: seq<Key>): nat
    requires Within(entries, keys)
  {
    if keys == [] then 0 else entries[keys[0]].bytes + Bytes(entries, keys[1..])
  }

  ghost predicate IsIn(keys: seq<Key>, k: Key) {
    k in keys
  }

  ghost predicate Covers(entries: map<Key, Frame>, keys: seq<Key>) {
    forall k {:trigger IsIn(keys, k)} :: k in entries ==> IsIn(keys, k)
  }

  ghost predicate Stamped(touched: map<Key, nat>, key: Key, clock: nat) {
    key in touched && touched[key] <= clock
  }

  ghost predicate Newer(touched: map<Key, nat>, a: Key, b: Key) {
    a in touched && b in touched && touched[a] > touched[b]
  }

  /** The list runs from the last touched to the least recently touched. */
  ghost predicate ByRecency(keys: seq<Key>, touched: map<Key, nat>, clock: nat) {
    && (forall i {:trigger Stamped(touched, keys[i], clock)} :: 0 <= i < |keys| ==> Stamped(touched, keys[i], clock))
    && (forall i, j {:trigger Newer(touched, keys[i], keys[j])} :: 0 <= i < j < |keys| ==> Newer(touched, keys[i], keys[j]))
  }

  /** Everything that holds between calls, but for the budget: the list is the stored keys by recency. */
  ghost predicate Consistent(entries: map<Key, Frame>, keys: seq<Key>, total: nat, touched: map<Key, nat>, clock: nat) {
    && Within(entries, keys)
    && Distinct(keys)
    && Covers(entries, keys)
    && total == Bytes(entries, keys)
    && ByRecency(keys, touched, clock)
  }

  // ---- A key in the list: what is before it and what is after it ----------------------

  lemma Cut(keys: seq<Key>, i: nat)
    requires i < |keys|
    ensures keys == keys[..i] + ([keys[i]] + keys[i + 1..])
  {
  }

  lemma CutDistinct(front: seq<Key>, key: Key, back: seq<Key>)
    requires Distinct(front + ([key] + back))
    ensures key !in front && key !in back && Distinct(front + back)
  {
    var all, rest := front + ([key] + back), front + back;
    assert all[|front|] == key;
    assert forall j :: 0 <= j < |front| ==> front[j] == all[j];
    assert forall j :: 0 <= j < |back| ==> back[j] == all[|front| + 1 + j];
    assert forall j :: 0 <= j < |rest| ==> rest[j] == all[if j < |front| then j else j + 1];
  }

  lemma WithoutCut(front: seq<Key>, key: Key, back: seq<Key>)
    requires key !in front && key !in back
    ensures Without(front + ([key] + back), key) == front + back
  {
    WithoutJoin(front, [key] + back, key);
    WithoutJoin([key], back, key);
    WithoutNone(front, key);
    WithoutNone(back, key);
    assert Without([key], key) == [];
    assert [] + back == back;
  }

  lemma Around(keys: seq<Key>, key: Key) returns (front: seq<Key>, back: seq<Key>)
    requires Distinct(keys) && key in keys
    ensures keys == front + ([key] + back) && Without(keys, key) == front + back
    ensures key !in front + back && Distinct(front + back)
  {
    var i :| 0 <= i < |keys| && keys[i] == key;
    Cut(keys, i);
    front, back := keys[..i], keys[i + 1..];
    CutDistinct(front, key, back);
    WithoutCut(front, key, back);
  }

  lemma FrontDistinct(key: Key, rest: seq<Key>)
    requires Distinct(rest) && key !in rest
    ensures Distinct([key] + rest)
  {
  }

  lemma InAround(front: seq<Key>, key: Key, back: seq<Key>, k: Key)
    ensures k in front + ([key] + back) <==> k == key || k in front + back
    ensures k in [key] + (front + back) <==> k == key || k in front + back
  {
  }

  lemma {:induction false} BytesJoin(entries: map<Key, Frame>, a: seq<Key>, b: seq<Key>)
    requires Within(entries, a) && Within(entries, b)
    ensures Within(entries, a + b) && Bytes(entries, a + b) == Bytes(entries, a) + Bytes(entries, b)
  {
    if a == [] {
      assert a + b == b;
    } else {
      assert (a + b)[1..] == a[1..] + b;
      BytesJoin(entries, a[1..], b);
    }
  }

  lemma {:induction false} BytesSame(entries: map<Key, Frame>, other: map<Key, Frame>, keys: seq<Key>)
    requires Within(entries, keys) && forall i :: 0 <= i < |keys| ==> keys[i] in other && entries[keys[i]] == other[keys[i]]
    ensures Within(other, keys) && Bytes(entries, keys) == Bytes(other, keys)
  {
    if keys != [] {
      BytesSame(entries, other, keys[1..]);
    }
  }

  lemma BytesOne(entries: map<Key, Frame>, key: Key)
    requires key in entries
    ensures Within(entries, [key]) && Bytes(entries, [key]) == entries[key].bytes
  {
  }

  lemma BytesAround(entries: map<Key, Frame>, front: seq<Key>, key: Key, back: seq<Key>)
    requires Within(entries, front + ([key] + back))
    ensures key in entries && Within(entries, front + back) && Within(entries, [key] + (front + back))
    ensures Bytes(entries, front + ([key] + back)) == entries[key].bytes + Bytes(entries, front + back)
    ensures Bytes(entries, [key] + (front + back)) == entries[key].bytes + Bytes(entries, front + back)
  {
    var all := front + ([key] + back);
    assert all[|front|] == key;
    assert Within(entries, front) by {
      assert forall i :: 0 <= i < |front| ==> front[i] == all[i];
    }
    assert Within(entries, back) by {
      assert forall i :: 0 <= i < |back| ==> back[i] == all[|front| + 1 + i];
    }
    BytesOne(entries, key);
    BytesJoin(entries, [key], back);
    BytesJoin(entries, front, [key] + back);
    BytesJoin(entries, front, back);
    BytesJoin(entries, [key], front + back);
  }

  lemma RecencyAround(front: seq<Key>, key: Key, back: seq<Key>, touched: map<Key, nat>, clock: nat)
    requires ByRecency(front + ([key] + back), touched, clock)
    ensures ByRecency(front + back, touched, clock)
  {
    var all, rest := front + ([key] + back), front + back;
    forall i | 0 <= i < |rest|
      ensures rest[i] == all[if i < |front| then i else i + 1] && Stamped(touched, rest[i], clock)
    {
      assert Stamped(touched, all[if i < |front| then i else i + 1], clock);
    }
    forall i, j | 0 <= i < j < |rest|
      ensures Newer(touched, rest[i], rest[j])
    {
      assert Newer(touched, all[if i < |front| then i else i + 1], all[if j < |front| then j else j + 1]);
    }
  }

  lemma RecencyFront(key: Key, rest: seq<Key>, touched: map<Key, nat>, clock: nat)
    requires ByRecency(rest, touched, clock) && key !in rest
    ensures ByRecency([key] + rest, touched[key := clock + 1], clock + 1)
  {
    var all, now := [key] + rest, touched[key := clock + 1];
    forall i | 1 <= i < |all|
      ensures all[i] == rest[i - 1] && all[i] != key && Stamped(now, all[i], clock) && now[all[i]] == touched[all[i]]
    {
      assert rest[i - 1] in rest;
      assert Stamped(touched, rest[i - 1], clock);
    }
    forall i, j | 0 <= i < j < |all|
      ensures Newer(now, all[i], all[j])
    {
      if i > 0 {
        assert Newer(touched, rest[i - 1], rest[j - 1]);
      }
    }
  }

  // ---- What a step does to the list -----------------------------------------------------

  /** Moving a listed key to the front changes nothing but the order and its time of touch. */
  lemma Touching(entries: map<Key, Frame>, keys: seq<Key>, total: nat, touched: map<Key, nat>, clock: nat, key: Key)
    requires Consistent(entries, keys, total, touched, clock) && key in entries
    ensures Consistent(entries, [key] + Without(keys, key), total, touched[key := clock + 1], clock + 1)
  {
    assert IsIn(keys, key);
    var front, back := Around(keys, key);
    BytesAround(entries, front, key, back);
    FrontDistinct(key, front + back);
    RecencyAround(front, key, back, touched, clock);
    RecencyFront(key, front + back, touched, clock);
    forall k | k in entries
      ensures IsIn([key] + (front + back), k)
    {
      assert IsIn(keys, k);
      InAround(front, key, back, k);
    }
  }

  lemma Adding(entries: map<Key, Frame>, keys: seq<Key>, total: nat, touched: map<Key, nat>, clock: nat, key: Key,
               frame: Frame)
    requires Consistent(entries, keys, total, touched, clock) && key !in entries
    ensures Consistent(entries[key := frame], [key] + keys, total + frame.bytes, touched[key := clock + 1], clock + 1)
  {
    var more := entries[key := frame];
    assert key !in keys;
    BytesSame(entries, more, keys);
    BytesOne(more, key);
    BytesJoin(more, [key], keys);
    FrontDistinct(key, keys);
    RecencyFront(key, keys, touched, clock);
    forall k | k in more
      ensures IsIn([key] + keys, k)
    {
      assert k == key || IsIn(keys, k);
    }
  }

  lemma Erasing(entries: map<Key, Frame>, keys: seq<Key>, total: nat, touched: map<Key, nat>, clock: nat, key: Key)
    requires Consistent(entries, keys, total, touched, clock) && key in entries
    ensures entries[key].bytes <= total
    ensures Consistent(entries - {key}, Without(keys, key), total - entries[key].bytes, touched, clock)
  {
    assert IsIn(keys, key);
    var front, back := Around(keys, key);
    var rest, less := front + back, entries - {key};
    BytesAround(entries, front, key, back);
    forall i | 0 <= i < |rest|
      ensures rest[i] in less && entries[rest[i]] == less[rest[i]]
    {
      assert rest[i] in rest;
    }
    BytesSame(entries, less, rest);
    RecencyAround(front, key, back, touched, clock);
    forall k | k in less
      ensures IsIn(rest, k)
    {
      assert IsIn(keys, k);
      InAround(front, key, back, k);
    }
  }

  lemma WithoutLast(keys: seq<Key>)
    requires keys != [] && Distinct(keys)
    ensures Without(keys, keys[|keys| - 1]) == keys[..|keys| - 1]
  {
    var front, last := keys[..|keys| - 1], keys[|keys| - 1];
    assert keys == front + ([last] + []) && front + [] == front;
    WithoutCut(front, last, []);
  }

  /** The entries of a prefix of the list. */
  ghost function Only(entries: map<Key, Frame>, keys: seq<Key>): map<Key, Frame> {
    map k | k in entries && k in keys :: entries[k]
  }

  /** The bytes of the first entries of the list. */
  ghost function BytesUpTo(entries: map<Key, Frame>, keys: seq<Key>, k: nat): nat
    requires Within(entries, keys) && k <= |keys|
  {
    if k == 0 then 0 else BytesUpTo(entries, keys, k - 1) + entries[keys[k - 1]].bytes
  }

  lemma {:induction false} UpToIs(entries: map<Key, Frame>, keys: seq<Key>, k: nat)
    requires Within(entries, keys) && k <= |keys|
    ensures Within(entries, keys[..k]) && BytesUpTo(entries, keys, k) == Bytes(entries, keys[..k])
  {
    if k > 0 {
      UpToIs(entries, keys, k - 1);
      BytesOne(entries, keys[k - 1]);
      BytesJoin(entries, keys[..k - 1], [keys[k - 1]]);
      assert keys[..k] == keys[..k - 1] + [keys[k - 1]];
    }
  }

  /** How many of the most recent entries stay: as many as fit the budget. */
  ghost predicate KeepsFitting(entries: map<Key, Frame>, keys: seq<Key>, budget: nat, kept: nat)
    requires Within(entries, keys)
  {
    && kept <= |keys|
    && BytesUpTo(entries, keys, kept) <= budget
    && (forall k :: kept < k <= |keys| ==> BytesUpTo(entries, keys, k) > budget)
  }

  /** On the way: a most recent part, and nothing longer fits. */
  ghost predicate Evicting(all: map<Key, Frame>, list: seq<Key>, entries: map<Key, Frame>, keys: seq<Key>, budget: nat)
    requires Within(all, list)
  {
    && |keys| <= |list|
    && keys == list[..|keys|]
    && entries == Only(all, keys)
    && (forall k :: |keys| < k <= |list| ==> BytesUpTo(all, list, k) > budget)
  }

  /** The bytes that are left are those of the part that is left. */
  lemma EvictBytes(all: map<Key, Frame>, list: seq<Key>, entries: map<Key, Frame>, keys: seq<Key>)
    requires Within(all, list) && Within(entries, keys) && |keys| <= |list| && keys == list[..|keys|]
    requires entries == Only(all, keys)
    ensures Bytes(entries, keys) == BytesUpTo(all, list, |keys|)
  {
    UpToIs(all, list, |keys|);
    BytesSame(entries, all, keys);
  }

  lemma EvictLess(all: map<Key, Frame>, list: seq<Key>, entries: map<Key, Frame>, keys: seq<Key>, budget: nat)
    requires Within(all, list) && Evicting(all, list, entries, keys, budget) && keys != [] && Distinct(keys)
    requires BytesUpTo(all, list, |keys|) > budget
    ensures Evicting(all, list, entries - {keys[|keys| - 1]}, keys[..|keys| - 1], budget)
  {
  }

  lemma LastFits(entries: map<Key, Frame>, keys: seq<Key>, total: nat, touched: map<Key, nat>, clock: nat)
    requires Consistent(entries, keys, total, touched, clock) && keys != []
    ensures keys[|keys| - 1] in entries && entries[keys[|keys| - 1]].bytes <= total
  {
    Erasing(entries, keys, total, touched, clock, keys[|keys| - 1]);
  }

  lemma EvictStep(all: map<Key, Frame>, list: seq<Key>, entries: map<Key, Frame>, keys: seq<Key>, total: nat,
                  touched: map<Key, nat>, clock: nat, budget: nat, less: map<Key, Frame>, front: seq<Key>, left: nat)
    requires Within(all, list) && Evicting(all, list, entries, keys, budget) && keys != [] && total > budget
    requires Consistent(entries, keys, total, touched, clock)
    requires front == keys[..|keys| - 1] && less == entries - {keys[|keys| - 1]}
    requires left == total - entries[keys[|keys| - 1]].bytes
    ensures Consistent(less, front, left, touched, clock) && Evicting(all, list, less, front, budget)
  {
    EvictBytes(all, list, entries, keys);
    EvictLess(all, list, entries, keys, budget);
    Erasing(entries, keys, total, touched, clock, keys[|keys| - 1]);
    WithoutLast(keys);
  }

  lemma EvictDone(all: map<Key, Frame>, list: seq<Key>, entries: map<Key, Frame>, keys: seq<Key>, total: nat,
                  touched: map<Key, nat>, clock: nat, budget: nat)
    requires Within(all, list) && Evicting(all, list, entries, keys, budget)
    requires Consistent(entries, keys, total, touched, clock) && (total <= budget || keys == [])
    ensures total <= budget && Evicted(all, list, budget, entries, keys)
  {
    EvictBytes(all, list, entries, keys);
  }

  /** What adding a new frame leaves: the longest most recent part that fits, the new frame first. */
  ghost predicate Evicted(entries: map<Key, Frame>, keys: seq<Key>, budget: nat, left: map<Key, Frame>, list: seq<Key>)
    requires Within(entries, keys)
  {
    && |list| <= |keys|
    && list == keys[..|list|]
    && KeepsFitting(entries, keys, budget, |list|)
    && left == Only(entries, list)
  }

  // ---- The cache ---------------------------------------------------------------------

  class FrameCache {
    const byteBudget: nat
    var entries: map<Key, Frame>
    var lru: seq<Key>
    var totalBytes: nat
    var activeSources: set<SourceId>
    var sourceFrameBytes: map<SourceId, nat>
    ghost var touched: map<Key, nat>
    ghost var clock: nat
    /** The sizes of the frames put for a source since it was last cleared. */
    ghost var seen: map<SourceId, set<nat>>

    constructor (byteBudget: nat)
      ensures this.byteBudget == byteBudget && Valid() && entries == map[]
      ensures activeSources == {} && sourceFrameBytes == map[]
    {
      this.byteBudget := byteBudget;
      entries, lru, totalBytes, activeSources, sourceFrameBytes := map[], [], 0, {}, map[];
      touched, clock, seen := map[], 0, map[];
    }

    ghost predicate Valid()
      reads this
    {
      Consistent(entries, lru, totalBytes, touched, clock) && totalBytes <= byteBudget && Remembers(sourceFrameBytes, seen)
    }

    method Touch(key: Key)
      requires Consistent(entries, lru, totalBytes, touched, clock) && key in entries
      modifies this`lru, this`touched, this`clock
      ensures Consistent(entries, lru, totalBytes, touched, clock)
      ensures lru == [key] + Without(old(lru), key) && touched == old(touched)[key := clock] && clock > old(clock)
    {
      Touching(entries, lru, totalBytes, touched, clock, key);
      lru := [key] + Without(lru, key);
      clock := clock + 1;
      touched := touched[key := clock];
    }

    method DropLast(ghost all: map<Key, Frame>, ghost list: seq<Key>, ghost stamps: map<Key, nat>, ghost time: nat)
      requires |lru| > 0 && totalBytes > byteBudget && Consistent(entries, lru, totalBytes, stamps, time)
      requires Within(all, list) && Evicting(all, list, entries, lru, byteBudget)
      modifies this`entries, this`lru, this`totalBytes
      ensures Consistent(entries, lru, totalBytes, stamps, time)
      ensures Evicting(all, list, entries, lru, byteBudget) && |lru| == |old(lru)| - 1
    {
      var key := lru[|lru| - 1];
      LastFits(entries, lru, totalBytes, stamps, time);
      var less, front, left := entries - {key}, lru[..|lru| - 1], totalBytes - entries[key].bytes;
      EvictStep(all, list, entries, lru, totalBytes, stamps, time, byteBudget, less, front, left);
      totalBytes := left;
      entries := less;
      lru := front;
    }

    /** Drops from the least recent end until the rest fits, and no more. */
    method EvictToBudget()
      requires Consistent(entries, lru, totalBytes, touched, clock) && Remembers(sourceFrameBytes, seen)
      modifies this`entries, this`lru, this`totalBytes
      ensures Valid()
      ensures Evicted(old(entries), old(lru), byteBudget, entries, lru)
    {
      ghost var all, list, stamps, time := entries, lru, touched, clock;
      AllKept(entries, lru);
      while totalBytes > byteBudget && |lru| > 0
        invariant Consistent(entries, lru, totalBytes, stamps, time)
        invariant Evicting(all, list, entries, lru, byteBudget)
        decreases |lru|
      {
        DropLast(all, list, stamps, time);
      }
      EvictDone(all, list, entries, lru, totalBytes, stamps, time, byteBudget);
    }

    method Insert(key: Key, frame: Frame)
      requires Valid() && key !in entries
      modifies this`entries, this`lru, this`totalBytes, this`touched, this`clock
      ensures Consistent(entries, lru, totalBytes, touched, clock)
      ensures entries == old(entries)[key := frame] && lru == [key] + old(lru)
    {
      Adding(entries, lru, totalBytes, touched, clock, key, frame);
      lru := [key] + lru;
      entries := entries[key := frame];
      totalBytes := totalBytes + frame.bytes;
      clock := clock + 1;
      touched := touched[key := clock];
    }

    /**
     Remembers the source's largest frame. A key already there is only
     touched; a new one goes to the front and the rest is evicted to fit.
     */
    method Put(source: SourceId, index: int, frame: Option<Frame>) returns (stored: bool)
      requires Valid()
      modifies this
      ensures Valid() && activeSources == old(activeSources)
      ensures frame.None? ==> !stored && entries == old(entries) && lru == old(lru) &&
                              sourceFrameBytes == old(sourceFrameBytes) && seen == old(seen)
      ensures frame.Some? ==> seen == Saw(old(seen), source, frame.value.bytes)
      ensures frame.Some? ==> (stored <==> Key(source, index) in entries)
      ensures frame.Some? && Key(source, index) in old(entries) ==>
                entries == old(entries) && lru == [Key(source, index)] + Without(old(lru), Key(source, index))
      ensures frame.Some? && Key(source, index) !in old(entries) ==>
                (stored <==> frame.value.bytes <= byteBudget) &&
                Within(old(entries)[Key(source, index) := frame.value], [Key(source, index)] + old(lru)) &&
                Evicted(old(entries)[Key(source, index) := frame.value], [Key(source, index)] + old(lru), byteBudget,
                        entries, lru)
    {
      if frame.None? {
        return false;
      }
      NotedIsLargest(sourceFrameBytes, seen, source, frame.value.bytes);
      sourceFrameBytes := Noted(sourceFrameBytes, source, frame.value.bytes);
      seen := Saw(seen, source, frame.value.bytes);
      var key := Key(source, index);
      if key in entries {
        Touch(key);
        return true;
      }
      Insert(key, frame.value);
      ghost var all, list := entries, lru;
      EvictToBudget();
      FrontFits(all, list, byteBudget, lru);
      stored := key in entries;
    }

    method GetExact(source: SourceId, index: int) returns (frame: Option<Frame>)
      requires Valid()
      modifies this`lru, this`touched, this`clock
      ensures Valid()
      ensures frame == if Key(source, index) in entries then Some(entries[Key(source, index)]) else None
      ensures lru == if frame.Some? then [Key(source, index)] + Without(old(lru), Key(source, index)) else old(lru)
    {
      var key := Key(source, index);
      if key !in entries {
        return None;
      }
      Touch(key);
      return Some(entries[key]);
    }

    method TouchFrame(source: SourceId, index: int) returns (found: bool)
      requires Valid()
      modifies this`lru, this`touched, this`clock
      ensures Valid() && found == (Key(source, index) in entries)
      ensures lru == if found then [Key(source, index)] + Without(old(lru), Key(source, index)) else old(lru)
    {
      found := Key(source, index) in entries;
      if found {
        Touch(Key(source, index));
      }
    }

    method RegisterSource(source: SourceId)
      requires Valid()
      modifies this`activeSources
      ensures Valid() && activeSources == old(activeSources) + {source}
    {
      activeSources := activeSources + {source};
    }

    method UnregisterSource(source: SourceId)
      requires Valid()
      modifies this`activeSources
      ensures Valid() && activeSources == old(activeSources) - {source}
    {
      activeSources := activeSources - {source};
    }

    /** The nearest stored frame of the source; of two as near, the earlier. */
    method GetNearest(source: SourceId, index: int) returns (found: Option<(int, Frame)>)
      requires Valid()
      modifies this`lru, this`touched, this`clock
      ensures Valid()
      ensures found.None? <==> forall k :: k in entries ==> k.source != source
      ensures found.Some? ==>
                var key := Key(source, found.value.0);
                key in entries && found.value.1 == entries[key] && IsNearest(entries.Keys, source, index, found.value.0) &&
                lru == [key] + Without(old(lru), key)
      ensures found.None? ==> lru == old(lru)
    {
      var best := Nearest(entries.Keys, source, index);
      if best.None? {
        return None;
      }
      Touch(best.value);
      return Some((best.value.frame, entries[best.value]));
    }

    /** Forgets a source's frames and nothing else. */
    method ClearSource(source: SourceId)
      requires Valid()
      modifies this`entries, this`lru, this`totalBytes, this`sourceFrameBytes, this`seen
      ensures Valid() && seen == old(seen) - {source}
      ensures entries == old(entries) - OfSource(old(entries).Keys, source)
      ensures forall k :: k in entries <==> k in old(entries) && k.source != source
      ensures lru == NotOf(old(lru), source)
      ensures sourceFrameBytes == old(sourceFrameBytes) - {source}
    {
      var left := OfSource(entries.Keys, source);
      while left != {}
        invariant left == OfSource(entries.Keys, source)
        invariant Valid()
        invariant entries - left == old(entries) - OfSource(old(entries).Keys, source)
        invariant NotOf(lru, source) == NotOf(old(lru), source)
        invariant sourceFrameBytes == old(sourceFrameBytes) && seen == old(seen)
        decreases |left|
      {
        var key :| key in left;
        Erasing(entries, lru, totalBytes, touched, clock, key);
        NotOfWithout(lru, key);
        OneLess(entries, left, key, source);
        totalBytes := totalBytes - entries[key].bytes;
        lru := Without(lru, key);
        entries := entries - {key};
        left := left - {key};
      }
      NoneLeft(entries, lru, source);
      sourceFrameBytes := sourceFrameBytes - {source};
      seen := seen - {source};
    }

    /**
     How many frames to hold around the playhead, three quarters of them ahead:
     as few as take up the source's share of the budget at its largest frame.
     */
    method WindowForSource(source: SourceId) returns (w: Window)
      requires Valid()
      ensures w.ahead + w.behind + 1 == w.total && w.behind <= w.ahead
      ensures source !in seen || seen[source] == {0} ==> w.total == 1
      ensures source in seen ==>
                exists largest :: IsLargest(largest, seen[source]) && FillsShare(w.total, largest, |activeSources|, byteBudget)
      ensures w.total == 2 ==> w.ahead == 1
      ensures w.total > 2 ==> -2 < 4 * w.ahead - 3 * w.total <= 2
    {
      assert source in seen ==> IsLargest(sourceFrameBytes[source], seen[source]);
      if source !in sourceFrameBytes || sourceFrameBytes[source] == 0 {
        return Window(0, 0, 1);
      }
      var sourceCount := if |activeSources| > 1 then |activeSources| else 1;
      var share := sourceFrameBytes[source] * sourceCount;
      var numerator, denominator := byteBudget * 70, share * 100;
      Ceiling(numerator, denominator);
      var rounded := (numerator + denominator - 1) / denominator;
      var total := if rounded > 1 then rounded else 1;
      if total == 1 {
        return Window(0, 0, 1);
      }
      var most := (total * 3 + 2) / 4;
      var ahead := if total - 1 < most then total - 1 else most;
      return Window(ahead, total - 1 - ahead, total);
    }
  }

  // ---- What the methods rest on -----------------------------------------------------------

  /** The largest frame of a source seen so far. */
  function Noted(known: map<SourceId, nat>, source: SourceId, bytes: nat): map<SourceId, nat> {
    known[source := if source in known && known[source] > bytes then known[source] else bytes]
  }

  ghost function Saw(seen: map<SourceId, set<nat>>, source: SourceId, bytes: nat): map<SourceId, set<nat>> {
    seen[source := (if source in seen then seen[source] else {}) + {bytes}]
  }

  ghost predicate IsLargest(bytes: nat, sizes: set<nat>) {
    bytes in sizes && forall b :: b in sizes ==> b <= bytes
  }

  /** What is remembered of a source is the largest of its frames. */
  ghost predicate Remembers(known: map<SourceId, nat>, seen: map<SourceId, set<nat>>) {
    known.Keys == seen.Keys && forall source :: source in known ==> IsLargest(known[source], seen[source])
  }

  lemma NotedIsLargest(known: map<SourceId, nat>, seen: map<SourceId, set<nat>>, source: SourceId, bytes: nat)
    requires Remembers(known, seen)
    ensures Remembers(Noted(known, source, bytes), Saw(seen, source, bytes))
  {
    var now, sizes := Noted(known, source, bytes), Saw(seen, source, bytes);
    assert source in known ==> IsLargest(known[source], seen[source]);
    assert IsLargest(now[source], sizes[source]);
    forall other | other in known && other != source
      ensures IsLargest(now[other], sizes[other])
    {
      assert IsLargest(known[other], seen[other]);
    }
  }

  /** The fewest frames that reach seventy percent of the budget, shared by the active sources; one frame when they have no size. */
  ghost predicate FillsShare(total: nat, bytes: nat, sources: nat, budget: nat) {
    var share := bytes * if sources > 1 then sources else 1;
    if bytes == 0 then total == 1
    else 100 * share * total >= 70 * budget && (total > 1 ==> 100 * share * (total - 1) < 70 * budget)
  }

  function OfSource(keys: set<Key>, source: SourceId): set<Key> {
    set k | k in keys && k.source == source
  }

  lemma AllKept(entries: map<Key, Frame>, keys: seq<Key>)
    requires Covers(entries, keys)
    ensures keys[..|keys|] == keys && Only(entries, keys) == entries
  {
    assert forall k :: k in entries ==> IsIn(keys, k);
  }

  /** Longer parts of the list take no fewer bytes. */
  lemma {:induction false} UpToGrows(entries: map<Key, Frame>, keys: seq<Key>, j: nat, k: nat)
    requires Within(entries, keys) && j <= k <= |keys|
    ensures BytesUpTo(entries, keys, j) <= BytesUpTo(entries, keys, k)
  {
    if j < k {
      UpToGrows(entries, keys, j, k - 1);
    }
  }

  /** The newest entry stays exactly when it fits by itself. */
  lemma FrontFits(entries: map<Key, Frame>, keys: seq<Key>, budget: nat, list: seq<Key>)
    requires keys != [] && Within(entries, keys)
    requires |list| <= |keys| && list == keys[..|list|] && KeepsFitting(entries, keys, budget, |list|)
    ensures keys[0] in Only(entries, list) <== entries[keys[0]].bytes <= budget
    ensures Distinct(keys) && keys[0] in Only(entries, list) ==> entries[keys[0]].bytes <= budget
  {
    assert BytesUpTo(entries, keys, 1) == entries[keys[0]].bytes;
    if |list| > 0 {
      assert list[0] == keys[0];
      UpToGrows(entries, keys, 1, |list|);
    }
  }

  lemma OneLess(entries: map<Key, Frame>, left: set<Key>, key: Key, source: SourceId)
    requires left == OfSource(entries.Keys, source) && key in left
    ensures left - {key} == OfSource((entries - {key}).Keys, source)
    ensures (entries - {key}) - (left - {key}) == entries - left
  {
  }

  lemma NoneLeft(entries: map<Key, Frame>, keys: seq<Key>, source: SourceId)
    requires Within(entries, keys) && OfSource(entries.Keys, source) == {}
    ensures NotOf(keys, source) == keys && entries - {} == entries
  {
    forall i | 0 <= i < |keys|
      ensures keys[i].source != source
    {
      assert keys[i] !in OfSource(entries.Keys, source);
    }
    AllOther(keys, source);
  }

  lemma {:induction false} NotOfWithout(keys: seq<Key>, key: Key)
    ensures NotOf(Without(keys, key), key.source) == NotOf(keys, key.source)
  {
    if keys != [] {
      NotOfWithout(keys[1..], key);
      if keys[0] != key {
        assert Without(keys, key)[1..] == Without(keys[1..], key);
      }
    }
  }

  lemma {:induction false} AllOther(keys: seq<Key>, source: SourceId)
    requires forall i :: 0 <= i < |keys| ==> keys[i].source != source
    ensures NotOf(keys, source) == keys
  {
    if keys != [] {
      AllOther(keys[1..], source);
    }
  }

  lemma Ceiling(n: nat, d: nat)
    requires d > 0
    ensures var q := (n + d - 1) / d; q * d >= n && (q > 0 ==> (q - 1) * d < n)
  {
  }

  function Distance(a: int, b: int): nat {
    if a < b then b - a else a - b
  }

  /** The earliest stored frame of the source among those at least distance. */
  ghost predicate IsNearest(keys: set<Key>, source: SourceId, index: int, frame: int) {
    Key(source, frame) in keys &&
    forall k :: k in keys && k.source == source ==>
      Distance(frame, index) < Distance(k.frame, index) ||
      (Distance(frame, index) == Distance(k.frame, index) && frame <= k.frame)
  }

  /** The first key not before the target, in key order. */
  method LowerBound(keys: set<Key>, target: Key) returns (r: Option<Key>)
    ensures r.None? <==> forall k :: k in keys ==> k.Before(target)
    ensures r.Some? ==> r.value in keys && !r.value.Before(target) &&
                        forall k :: k in keys && k.Before(r.value) ==> k.Before(target)
  {
    r := None;
    var left := keys;
    while left != {}
      invariant left <= keys
      invariant r.None? ==> forall k :: k in keys - left ==> k.Before(target)
      invariant r.Some? ==> r.value in keys && !r.value.Before(target) &&
                            forall k :: k in keys - left && k.Before(r.value) ==> k.Before(target)
      decreases |left|
    {
      var k :| k in left;
      if !k.Before(target) && (r.None? || k.Before(r.value)) {
        r := Some(k);
      }
      left := left - {k};
    }
  }

  /** The last key before the target, in key order. */
  method LastBefore(keys: set<Key>, target: Key) returns (r: Option<Key>)
    ensures r.None? <==> forall k :: k in keys ==> !k.Before(target)
    ensures r.Some? ==> r.value in keys && r.value.Before(target) &&
                        forall k :: k in keys && r.value.Before(k) ==> !k.Before(target)
  {
    r := None;
    var left := keys;
    while left != {}
      invariant left <= keys
      invariant r.None? ==> forall k :: k in keys - left ==> !k.Before(target)
      invariant r.Some? ==> r.value in keys && r.value.Before(target) &&
                            forall k :: k in keys - left && r.value.Before(k) ==> !k.Before(target)
      decreases |left|
    {
      var k :| k in left;
      if k.Before(target) && (r.None? || r.value.Before(k)) {
        r := Some(k);
      }
      left := left - {k};
    }
  }

  /** No stored frame of the source is nearer than the neighbours of the target in key order. */
  lemma NeighboursSuffice(keys: set<Key>, target: Key, next: Option<Key>, previous: Option<Key>)
    requires next.None? <==> forall k :: k in keys ==> k.Before(target)
    requires next.Some? ==> next.value in keys && !next.value.Before(target) &&
                            forall k :: k in keys && k.Before(next.value) ==> k.Before(target)
    requires previous.None? <==> forall k :: k in keys ==> !k.Before(target)
    requires previous.Some? ==> previous.value in keys && previous.value.Before(target) &&
                                forall k :: k in keys && previous.value.Before(k) ==> !k.Before(target)
    ensures forall k :: k in keys && k.source == target.source ==>
              (k.frame >= target.frame ==> next.Some? && next.value.source == target.source &&
                                           target.frame <= next.value.frame <= k.frame) &&
              (k.frame < target.frame ==> previous.Some? && previous.value.source == target.source &&
                                          k.frame <= previous.value.frame < target.frame)
  {
    forall k | k in keys && k.source == target.source
      ensures k.frame >= target.frame ==> next.Some? && next.value.source == target.source &&
                                          target.frame <= next.value.frame <= k.frame
      ensures k.frame < target.frame ==> previous.Some? && previous.value.source == target.source &&
                                         k.frame <= previous.value.frame < target.frame
    {
      if k.frame >= target.frame {
        assert !k.Before(target);
      } else {
        assert k.Before(target);
      }
    }
  }

  method Nearest(keys: set<Key>, source: SourceId, index: int) returns (best: Option<Key>)
    ensures best.None? <==> forall k :: k in keys ==> k.source != source
    ensures best.Some? ==> best.value.source == source && best.value in keys && IsNearest(keys, source, index, best.value.frame)
  {
    var target := Key(source, index);
    var next := LowerBound(keys, target);
    var previous := LastBefore(keys, target);
    best := None;
    if next.Some? && next.value.source == source {
      best := next;
    }
    if previous.Some? && previous.value.source == source {
      if best.None? || Distance(previous.value.frame, index) <= Distance(best.value.frame, index) {
        best := previous;
      }
    }
    NeighboursSuffice(keys, target, next, previous);
  }
}
