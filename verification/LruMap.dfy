/** The bounded maps of a client, from keys to times (irc/getters.go): read markers, and when each device
    was last seen. Times are positive; the zero time stands for absence. */
module LruMap {

  datatype Touch = Touch(key: string, time: int)

  function Larger(a: int, b: int): int {
    if a > b then a else b
  }

  /** The largest time that the key has ever been given, or zero. */
  function Largest(history: seq<Touch>, key: string): int {
    if history == [] then 0
    else
      var last := history[|history| - 1];
      var before := Largest(history[..|history| - 1], key);
      if last.key == key then Larger(before, last.time) else before
  }

  /** The map holds the `limit` keys with the largest times, with those times. */
  ghost predicate IsTop(lru: map<string, int>, history: seq<Touch>, limit: nat) {
    && |lru| <= limit
    && (forall key :: key in lru ==> lru[key] == Largest(history, key) && lru[key] > 0)
    && (forall key, held :: key !in lru && held in lru ==> Largest(history, key) <= lru[held])
    && (|lru| < limit ==> forall key :: key !in lru ==> Largest(history, key) <= 0)
  }

  lemma {:induction false} LargestAfter(history: seq<Touch>, touch: Touch, key: string)
    ensures Largest(history + [touch], key) ==
            if touch.key == key then Larger(Largest(history, key), touch.time) else Largest(history, key)
  {
    assert (history + [touch])[..|history|] == history;
  }

  /** The map with the new time, before an entry is evicted. */
  ghost predicate IsTopAfter(lru: map<string, int>, history: seq<Touch>, touch: Touch, limit: nat) {
    IsTop(lru, history, limit) && touch.time > 0 && (touch.key in lru ==> lru[touch.key] <= touch.time)
  }

  lemma {:induction false} LargestAfterAll(history: seq<Touch>, touch: Touch)
    ensures forall key :: Largest(history + [touch], key) ==
              if touch.key == key then Larger(Largest(history, key), touch.time) else Largest(history, key)
  {
    forall key { LargestAfter(history, touch, key); }
  }

  lemma {:induction false} KeptIsTop(lru: map<string, int>, history: seq<Touch>, touch: Touch, limit: nat)
    requires IsTopAfter(lru, history, touch, limit) && |lru[touch.key := touch.time]| <= limit
    ensures IsTop(lru[touch.key := touch.time], history + [touch], limit)
  {
    LargestAfterAll(history, touch);
    if touch.key !in lru {
      assert lru[touch.key := touch.time].Keys == lru.Keys + {touch.key};
    }
  }

  lemma {:induction false} EvictedSize(lru: map<string, int>, limit: nat, key: string, time: int, least: string)
    requires |lru| <= limit < |lru[key := time]| && least in lru[key := time]
    ensures key !in lru && |lru| == limit && |lru[key := time] - {least}| == limit
  {
    var added := lru[key := time];
    assert added.Keys == lru.Keys + {key};
    assert (added - {least}).Keys == added.Keys - {least};
  }

  lemma {:induction false} EvictedIsTop(lru: map<string, int>, history: seq<Touch>, touch: Touch, limit: nat, least: string)
    requires IsTopAfter(lru, history, touch, limit)
    requires |lru[touch.key := touch.time]| > limit && IsLeast(lru[touch.key := touch.time], least)
    ensures touch.key !in lru && |lru| == limit
    ensures IsTop(lru[touch.key := touch.time] - {least}, history + [touch], limit)
  {
    var added := lru[touch.key := touch.time];
    EvictedSize(lru, limit, touch.key, touch.time, least);
    LargestAfterAll(history, touch);
    forall key | key in added - {least} ensures added[key] == Largest(history + [touch], key) {
      if key == touch.key {
        assert least in lru && Largest(history, key) <= lru[least];
      }
    }
    forall key, held | key !in added - {least} && held in added - {least}
      ensures Largest(history + [touch], key) <= added[held]
    {
      AbsentIsOlder(lru, history, touch, least, key, held);
    }
  }

  /** After the eviction a key that is absent was never newer than one that is held. */
  lemma {:induction false} AbsentIsOlder(lru: map<string, int>, history: seq<Touch>, touch: Touch, least: string, key: string, held: string)
    requires touch.key !in lru && IsLeast(lru[touch.key := touch.time], least)
    requires held != least && (held in lru || held == touch.key) && (key == least || (key !in lru && key != touch.key))
    requires forall k :: k in lru ==> lru[k] == Largest(history, k)
    requires forall k, h :: k !in lru && h in lru ==> Largest(history, k) <= lru[h]
    ensures (if key == touch.key then Larger(Largest(history, key), touch.time) else Largest(history, key)) <=
            lru[touch.key := touch.time][held]
  {
    var added := lru[touch.key := touch.time];
    assert added[least] <= added[held];
    if least != touch.key {
      assert Largest(history, key) <= lru[least];
    }
  }

  // ---------------------------------------------------------------- the loop that finds the entry to evict

  /** The keys of the map, in some order. */
  ghost predicate IsOrder(order: seq<string>, keys: set<string>) {
    && (forall key :: key in order <==> key in keys)
    && forall i, j :: 0 <= i < j < |order| ==> order[i] != order[j]
  }

  /** What the loop ends with: the zero time stands for nothing found yet. */
  ghost function Scan(lru: map<string, int>, order: seq<string>): (minKey: string)
    requires forall key :: key in order ==> key in lru
    ensures order != [] ==> minKey in order
  {
    if order == [] then ""
    else
      var n := |order| - 1;
      var minKey := Scan(lru, order[..n]);
      if n == 0 || lru[minKey] == 0 || lru[order[n]] < lru[minKey] then order[n] else minKey
  }

  ghost predicate IsLeast(lru: map<string, int>, least: string) {
    least in lru && forall key :: key in lru ==> lru[least] <= lru[key]
  }

  predicate HasZero(lru: map<string, int>) {
    exists key :: key in lru && lru[key] == 0
  }

  predicate HasOnlyZeros(lru: map<string, int>) {
    forall key :: key in lru ==> lru[key] == 0
  }

  /** The loop, in an order that the caller does not know. */
  method LeastRecent(lru: map<string, int>) returns (minKey: string, ghost order: seq<string>)
    requires lru != map[]
    ensures IsOrder(order, lru.Keys) && minKey == Scan(lru, order)
    ensures minKey in lru && ((forall key :: key in lru ==> lru[key] > 0) ==> IsLeast(lru, minKey))
  {
    var minVal := 0;
    minKey, order := "", [];
    var todo := lru.Keys;
    while todo != {}
      invariant todo <= lru.Keys && IsOrder(order, lru.Keys - todo)
      invariant minKey == Scan(lru, order) && minVal == (if order == [] then 0 else lru[minKey])
      decreases todo
    {
      var key :| key in todo;
      ScanOneMore(lru, order, lru.Keys - todo, key);
      assert lru.Keys - (todo - {key}) == (lru.Keys - todo) + {key};
      if minVal == 0 || lru[key] < minVal {
        minKey, minVal := key, lru[key];
      }
      order := order + [key];
      todo := todo - {key};
    }
    assert lru.Keys - todo == lru.Keys;
    var some :| some in lru;
    assert some in order;
    if forall key :: key in lru ==> lru[key] > 0 {
      ScanFindsLeast(lru, order);
    }
  }

  lemma {:induction false} ScanOneMore(lru: map<string, int>, order: seq<string>, seen: set<string>, key: string)
    requires IsOrder(order, seen) && seen <= lru.Keys && key in lru && key !in seen
    ensures IsOrder(order + [key], seen + {key})
    ensures Scan(lru, order + [key]) ==
            if order == [] || lru[Scan(lru, order)] == 0 || lru[key] < lru[Scan(lru, order)] then key else Scan(lru, order)
  {
    assert (order + [key])[..|order|] == order;
  }

  lemma {:induction false} ScanFindsLeast(lru: map<string, int>, order: seq<string>)
    requires order != [] && forall key :: key in order ==> key in lru
    requires forall key :: key in order ==> lru[key] > 0
    ensures forall key :: key in order ==> lru[Scan(lru, order)] <= lru[key]
    decreases |order|
  {
    var n := |order| - 1;
    if n > 0 {
      ScanFindsLeast(lru, order[..n]);
      assert order == order[..n] + [order[n]];
    }
  }

  lemma {:induction false} Enumerate(keys: set<string>) returns (order: seq<string>)
    ensures IsOrder(order, keys)
    decreases keys
  {
    order := [];
    if keys != {} {
      var key :| key in keys;
      order := Enumerate(keys - {key});
      order := order + [key];
    }
  }

  /** A key with a positive time that comes after all zero times hides them. */
  lemma {:induction false} ZerosAreHidden(lru: map<string, int>, zeros: seq<string>, others: seq<string>)
    requires forall key :: key in zeros + others ==> key in lru
    requires others != [] && forall key :: key in others ==> lru[key] > 0
    requires forall key :: key in zeros ==> lru[key] == 0
    ensures lru[Scan(lru, zeros + others)] > 0
    decreases |others|
  {
    var order, n := zeros + others, |others| - 1;
    assert order[..|order| - 1] == zeros + others[..n] && order[|order| - 1] == others[n];
    assert order[|order| - 1] in order;
    if n > 0 {
      ZerosAreHidden(lru, zeros, others[..n]);
    } else {
      assert others[..0] == [] && zeros + [] == zeros;
    }
  }

  /** The loop finds a least entry in every order of iteration, if and only if no time is zero or all are. */
  lemma {:induction false} LeastIsFoundExactlyWithoutZeros(lru: map<string, int>)
    requires lru != map[] && forall key :: key in lru ==> lru[key] >= 0
    ensures (forall order :: IsOrder(order, lru.Keys) ==> IsLeast(lru, Scan(lru, order))) <==> !HasZero(lru) || HasOnlyZeros(lru)
  {
    var some :| some in lru;
    if !HasZero(lru) {
      forall order | IsOrder(order, lru.Keys) ensures IsLeast(lru, Scan(lru, order)) {
        assert some in order;
        ScanFindsLeast(lru, order);
      }
    } else if HasOnlyZeros(lru) {
      forall order | IsOrder(order, lru.Keys) ensures IsLeast(lru, Scan(lru, order)) {
        assert some in order;
      }
    } else {
      var zero :| zero in lru && lru[zero] == 0;
      var zeros := Enumerate(set key | key in lru && lru[key] == 0);
      var others := Enumerate(set key | key in lru && lru[key] > 0);
      var positive :| positive in lru && lru[positive] != 0;
      assert positive in others;
      ZerosAreHidden(lru, zeros, others);
      var order := zeros + others;
      forall i | 0 <= i < |order| ensures order[i] in lru && (lru[order[i]] == 0 <==> i < |zeros|) {
        assert if i < |zeros| then order[i] in zeros else order[i] in others;
      }
      assert IsOrder(order, lru.Keys);
      assert !IsLeast(lru, Scan(lru, zeros + others));
    }
  }

  // ---------------------------------------------------------------- updates

  /** updateLRUMap, with the order in which its loop comes across the entries. */
  ghost function Updated(lru: map<string, int>, touch: Touch, limit: nat, order: seq<string>): map<string, int>
    requires forall key :: key in order ==> key in lru || key == touch.key
  {
    var added := lru[touch.key := touch.time];
    if touch.key in lru && lru[touch.key] > touch.time then lru
    else if |added| > limit then added - {Scan(added, order)}
    else added
  }

  /** One of the outcomes of an update. */
  ghost predicate MayBecome(lru: map<string, int>, touch: Touch, limit: nat, lru': map<string, int>) {
    exists order :: IsOrder(order, lru.Keys + {touch.key}) && lru' == Updated(lru, touch, limit, order)
  }

  /** An update, and the order in which its loop will come across the entries. */
  datatype Visit = Visit(touch: Touch, order: seq<string>)

  ghost predicate IsRun(limit: nat, lru: map<string, int>, visits: seq<Visit>, lru': map<string, int>)
    decreases visits
  {
    if visits == [] then lru' == lru
    else
      var touch, order := visits[0].touch, visits[0].order;
      IsOrder(order, lru.Keys + {touch.key}) && IsRun(limit, Updated(lru, touch, limit, order), visits[1..], lru')
  }

  function Touches(visits: seq<Visit>): seq<Touch> {
    seq(|visits|, i requires 0 <= i < |visits| => visits[i].touch)
  }

  predicate ArePositive(touches: seq<Touch>) {
    forall touch :: touch in touches ==> touch.time > 0
  }

  lemma {:induction false} SkippedIsTop(lru: map<string, int>, history: seq<Touch>, touch: Touch, limit: nat)
    requires IsTop(lru, history, limit) && touch.key in lru && lru[touch.key] > touch.time
    ensures IsTop(lru, history + [touch], limit)
  {
    LargestAfterAll(history, touch);
    assert forall key :: Largest(history + [touch], key) == Largest(history, key);
  }

  lemma {:induction false} AddedIsTop(lru: map<string, int>, history: seq<Touch>, touch: Touch, limit: nat, order: seq<string>)
    requires IsTopAfter(lru, history, touch, limit) && IsOrder(order, lru.Keys + {touch.key})
    ensures IsTop(Updated(lru, touch, limit, order), history + [touch], limit)
  {
    var added := lru[touch.key := touch.time];
    if |added| > limit {
      assert touch.key in order;
      ScanIsLeast(added, order);
      EvictedIsTop(lru, history, touch, limit, Scan(added, order));
    } else {
      KeptIsTop(lru, history, touch, limit);
    }
  }

  lemma {:induction false} ScanIsLeast(lru: map<string, int>, order: seq<string>)
    requires IsOrder(order, lru.Keys) && order != [] && forall key :: key in lru ==> lru[key] > 0
    ensures IsLeast(lru, Scan(lru, order))
  {
    ScanFindsLeast(lru, order);
  }

  /** With positive times every outcome of an update is the top of the times so far. */
  lemma {:induction false} UpdatedIsTop(lru: map<string, int>, history: seq<Touch>, touch: Touch, limit: nat, lru': map<string, int>)
    requires IsTop(lru, history, limit) && touch.time > 0 && MayBecome(lru, touch, limit, lru')
    ensures IsTop(lru', history + [touch], limit)
  {
    var order :| IsOrder(order, lru.Keys + {touch.key}) && lru' == Updated(lru, touch, limit, order);
    if touch.key in lru && lru[touch.key] > touch.time {
      SkippedIsTop(lru, history, touch, limit);
    } else {
      AddedIsTop(lru, history, touch, limit, order);
    }
  }

  lemma {:induction false} FirstVisit(history: seq<Touch>, visits: seq<Visit>)
    requires visits != []
    ensures history + Touches(visits) == history + [visits[0].touch] + Touches(visits[1..])
    ensures ArePositive(Touches(visits)) ==> visits[0].touch.time > 0 && ArePositive(Touches(visits[1..]))
  {
    assert Touches(visits) == [visits[0].touch] + Touches(visits[1..]);
    if ArePositive(Touches(visits)) {
      assert Touches(visits)[0] in Touches(visits);
      assert forall touch :: touch in Touches(visits[1..]) ==> touch in Touches(visits);
    }
  }

  /** Over any run of updates with positive times the map is the streaming top N. */
  lemma {:induction false} RunIsTop(limit: nat, lru: map<string, int>, history: seq<Touch>, visits: seq<Visit>, lru': map<string, int>)
    requires IsTop(lru, history, limit) && ArePositive(Touches(visits)) && IsRun(limit, lru, visits, lru')
    ensures IsTop(lru', history + Touches(visits), limit)
    decreases visits
  {
    if visits == [] {
      assert history + Touches(visits) == history;
    } else {
      FirstVisit(history, visits);
      var next := Updated(lru, visits[0].touch, limit, visits[0].order);
      UpdatedIsTop(lru, history, visits[0].touch, limit, next);
      RunIsTop(limit, next, history + [visits[0].touch], visits[1..], lru');
    }
  }

  /** The loop over these three entries in this order ends with the second one. */
  lemma {:induction false} ZeroIsScannedPast(lru: map<string, int>, oldest: string, middle: string, newest: string)
    requires oldest != middle && middle != newest && oldest != newest
    requires lru == map[oldest := 0, middle := 5, newest := 7]
    ensures IsOrder([oldest, middle, newest], lru.Keys) && Scan(lru, [oldest, middle, newest]) == middle
  {
    var order := [oldest, middle, newest];
    assert order[..2] == [oldest, middle] && order[..2][..1] == [oldest] && order[..2][..1][..0] == [];
    assert Scan(lru, [oldest]) == oldest;
    assert [oldest, middle][..1] == [oldest];
    assert Scan(lru, [oldest, middle]) == middle;
  }

  lemma {:induction false} ThreeUpdates(oldest: string, middle: string, newest: string)
    requires oldest != middle && middle != newest && oldest != newest
    ensures Updated(map[], Touch(oldest, 0), 2, [oldest]) == map[oldest := 0]
    ensures Updated(map[oldest := 0], Touch(middle, 5), 2, [oldest, middle]) == map[oldest := 0, middle := 5]
    ensures IsOrder([oldest, middle, newest], map[oldest := 0, middle := 5].Keys + {newest})
    ensures Updated(map[oldest := 0, middle := 5], Touch(newest, 7), 2, [oldest, middle, newest]) == map[oldest := 0, newest := 7]
  {
    var three := map[oldest := 0, middle := 5, newest := 7];
    ZeroIsScannedPast(three, oldest, middle, newest);
    assert map[oldest := 0].Keys == {oldest} && map[oldest := 0, middle := 5].Keys == {oldest, middle};
    assert three.Keys == {oldest, middle, newest} && |{oldest, middle, newest}| == 3;
    assert map[oldest := 0, middle := 5][newest := 7] == three;
    assert map[][oldest := 0] == map[oldest := 0] && map[oldest := 0][middle := 5] == map[oldest := 0, middle := 5];
    assert three - {middle} == map[oldest := 0, newest := 7];
  }

  /** A key with the zero time hides itself from eviction: the key that goes is newer than one that stays. */
  lemma {:induction false} ZeroTimeIsKept(oldest: string, middle: string, newest: string) returns (visits: seq<Visit>, lru: map<string, int>)
    requires oldest != middle && middle != newest && oldest != newest
    ensures Touches(visits) == [Touch(oldest, 0), Touch(middle, 5), Touch(newest, 7)] && IsRun(2, map[], visits, lru)
    ensures lru == map[oldest := 0, newest := 7] && !IsTop(lru, Touches(visits), 2)
  {
    lru := map[oldest := 0, newest := 7];
    var a, b, c := Touch(oldest, 0), Touch(middle, 5), Touch(newest, 7);
    visits := [Visit(a, [oldest]), Visit(b, [oldest, middle]), Visit(c, [oldest, middle, newest])];
    ThreeVisits(oldest, middle, newest, visits);
    MiddleIsLarger(a, b, c);
    assert Touches(visits) == [a, b, c];
    NotTop(lru, [a, b, c], middle, oldest);
  }

  lemma {:induction false} ThreeVisits(oldest: string, middle: string, newest: string, visits: seq<Visit>)
    requires oldest != middle && middle != newest && oldest != newest
    requires visits == [Visit(Touch(oldest, 0), [oldest]), Visit(Touch(middle, 5), [oldest, middle]),
                        Visit(Touch(newest, 7), [oldest, middle, newest])]
    ensures IsRun(2, map[], visits, map[oldest := 0, newest := 7])
  {
    var a, b, c, lru := Touch(oldest, 0), Touch(middle, 5), Touch(newest, 7), map[oldest := 0, newest := 7];
    ThreeUpdates(oldest, middle, newest);
    assert visits[1..] == [Visit(b, [oldest, middle]), Visit(c, [oldest, middle, newest])];
    assert visits[1..][1..] == [Visit(c, [oldest, middle, newest])] && visits[1..][1..][1..] == [];
    assert IsOrder([oldest], {} + {oldest}) && IsOrder([oldest, middle], map[oldest := 0].Keys + {middle});
    assert IsRun(2, map[oldest := 0, middle := 5], visits[1..][1..], lru);
    assert IsRun(2, map[oldest := 0], visits[1..], lru);
  }

  lemma {:induction false} NotTop(lru: map<string, int>, history: seq<Touch>, absent: string, held: string)
    requires absent !in lru && held in lru && Largest(history, absent) > lru[held]
    ensures !IsTop(lru, history, 2)
  {
  }

  lemma {:induction false} MiddleIsLarger(a: Touch, b: Touch, c: Touch)
    requires b.key != c.key && a.key != b.key && b.time > 0
    ensures Largest([a, b, c], b.key) == b.time
  {
    assert [a, b, c][..2] == [a, b] && [a, b][..1] == [a] && [a][..0] == [];
    assert Largest([a], b.key) == 0;
    assert Largest([a, b], b.key) == b.time;
  }

  class Times {
    const maxItems: nat
    var lru: map<string, int>
    ghost var history: seq<Touch>

    ghost predicate Valid()
      reads this
    {
      && |lru| <= maxItems && (forall key :: key in lru ==> lru[key] >= 0)
      && (ArePositive(history) ==> IsTop(lru, history, maxItems))
    }

    constructor (maxItems: nat)
      ensures Valid() && lru == map[] && history == [] && this.maxItems == maxItems
    {
      this.maxItems := maxItems;
      lru, history := map[], [];
    }

    /** Remembers the time unless a later one is there, and returns the one that counts. */
    method Update(key: string, val: int) returns (result: int)
      requires Valid() && val >= 0
      modifies this
      ensures Valid() && history == old(history) + [Touch(key, val)]
      ensures result == if key in old(lru) then Larger(old(lru)[key], val) else val
      ensures MayBecome(old(lru), Touch(key, val), maxItems, lru)
      ensures forall other :: other in lru && other != key ==> other in old(lru) && lru[other] == old(lru)[other]
    {
      ghost var before := lru;
      ghost var order;
      result, order := Change(key, val);
      if ArePositive(history + [Touch(key, val)]) {
        assert forall touch :: touch in history ==> touch in history + [Touch(key, val)];
        assert Touch(key, val) in history + [Touch(key, val)];
        UpdatedIsTop(before, history, Touch(key, val), maxItems, lru);
      }
      history := history + [Touch(key, val)];
    }

    /** The code of updateLRUMap; `order` is the one in which the loop comes across the entries. */
    method Change(key: string, val: int) returns (result: int, ghost order: seq<string>)
      requires |lru| <= maxItems && val >= 0 && forall k :: k in lru ==> lru[k] >= 0
      modifies this`lru
      ensures |lru| <= maxItems && forall k :: k in lru ==> lru[k] >= 0
      ensures result == if key in old(lru) then Larger(old(lru)[key], val) else val
      ensures IsOrder(order, old(lru).Keys + {key}) && lru == Updated(old(lru), Touch(key, val), maxItems, order)
      ensures forall other :: other in lru && other != key ==> other in old(lru) && lru[other] == old(lru)[other]
    {
      if key in lru && lru[key] > val {
        order := Enumerate(lru.Keys + {key});
        return lru[key], order;
      }
      order := Put(key, val);
      return val, order;
    }

    method Put(key: string, val: int) returns (ghost order: seq<string>)
      requires |lru| <= maxItems
      modifies this`lru
      ensures IsOrder(order, old(lru).Keys + {key}) && |lru| <= maxItems
      ensures var added := old(lru)[key := val]; lru == if |added| > maxItems then added - {Scan(added, order)} else added
    {
      lru := lru[key := val];
      assert lru.Keys == old(lru).Keys + {key};
      if maxItems < |lru| {
        order := Evict();
      } else {
        order := Enumerate(lru.Keys);
      }
    }

    method Evict() returns (ghost order: seq<string>)
      requires lru != map[]
      modifies this`lru
      ensures IsOrder(order, old(lru).Keys) && order != [] && lru == Without(old(lru), Scan(old(lru), order))
    {
      var minKey;
      minKey, order := LeastRecent(lru);
      lru := Without(lru, minKey);
    }
  }

  function Without(lru: map<string, int>, key: string): (rest: map<string, int>)
    requires key in lru
    ensures rest == lru - {key} && |rest| == |lru| - 1
  {
    assert (lru - {key}).Keys == lru.Keys - {key};
    lru - {key}
  }
}
