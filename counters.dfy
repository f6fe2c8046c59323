/**
 * The counter-list operations of the home page (app/page.tsx). Each one reads
 * the current list (an absent list counts as empty) and returns the whole new
 * list, which the page then writes back through `setCounters`.
 */
module Counters {
  import opened Wrappers
  import Text

  datatype Counter = Counter(id: string, name: string, count: int)

  /** `Partial<Counter>`: the fields an update carries. */
  datatype Patch = Patch(id: Option<string>, name: Option<string>, count: Option<int>)

  /** What a counter card asks the page to do. */
  datatype Request = UpdateRequest(id: string, patch: Patch) | DeleteRequest(id: string)

  /** `counters || []`. */
  function Current(counters: Option<seq<Counter>>): seq<Counter> {
    counters.GetOr([])
  }

  function Ids(cs: seq<Counter>): set<string> {
    set c | c in cs :: c.id
  }

  ghost predicate UniqueIds(cs: seq<Counter>) {
    forall i, j :: 0 <= i < j < |cs| ==> cs[i].id != cs[j].id
  }

  /** The default name of the counter added to a list of `n` counters. */
  function DefaultName(n: nat): string {
    "Contador " + Text.NatToDecimal(n + 1)
  }

  /** `addCounter`: append a counter with the fresh id, the next default name and count 0. */
  function AddCounter(counters: Option<seq<Counter>>, freshId: string): (r: seq<Counter>)
    ensures |r| == |Current(counters)| + 1 && r[..|r| - 1] == Current(counters)
    ensures r[|r| - 1].id == freshId && r[|r| - 1].count == 0
    ensures r[|r| - 1].name == DefaultName(|Current(counters)|)
  {
    var cs := Current(counters);
    cs + [Counter(freshId, DefaultName(|cs|), 0)]
  }

  /** The default name spells out the new length of the list, so successive adds never repeat a name. */
  lemma DefaultNameCounts(n: nat)
    ensures var name := DefaultName(n);
      |name| > 9 && name[..9] == "Contador " && Text.IsDigits(name[9..])
      && Text.DecimalValue(name[9..]) == n + 1
  {
    var name := DefaultName(n);
    assert name[9..] == Text.NatToDecimal(n + 1);
    Text.DecimalRoundTrip(n + 1);
  }

  /** A fresh id keeps the ids of the list unique. */
  lemma AddKeepsIdsUnique(counters: Option<seq<Counter>>, freshId: string)
    requires UniqueIds(Current(counters)) && freshId !in Ids(Current(counters))
    ensures UniqueIds(AddCounter(counters, freshId))
    ensures Ids(AddCounter(counters, freshId)) == Ids(Current(counters)) + {freshId}
  {
    var cs := Current(counters);
    var r := AddCounter(counters, freshId);
    forall i, j | 0 <= i < j < |r| ensures r[i].id != r[j].id {
      if j == |r| - 1 {
        assert r[i] == cs[i];
        assert r[i] in cs;
      }
    }
    forall x | x in Ids(r) ensures x in Ids(cs) + {freshId} {
      var c :| c in r && c.id == x;
      var k :| 0 <= k < |r| && r[k] == c;
      if k < |cs| { assert cs[k] == c; }
    }
    forall x | x in Ids(cs) + {freshId} ensures x in Ids(r) {
      if x in Ids(cs) {
        var c :| c in cs && c.id == x;
        var k :| 0 <= k < |cs| && cs[k] == c;
        assert r[k] == c;
      } else {
        assert r[|r| - 1] in r;
      }
    }
  }

  /** `{ ...counter, ...updates }`: the fields present in the patch win. */
  function Apply(c: Counter, p: Patch): Counter
  {
    Counter(p.id.GetOr(c.id), p.name.GetOr(c.name), p.count.GetOr(c.count))
  }

  /** `{ ...p, ...q }`: one patch holding the fields of both, those of `q` winning. */
  function Merge(p: Patch, q: Patch): Patch
  {
    Patch(if q.id.Some? then q.id else p.id,
          if q.name.Some? then q.name else p.name,
          if q.count.Some? then q.count else p.count)
  }

  /** A patch with no fields leaves the counter as it is. */
  lemma ApplyEmptyPatch(c: Counter)
    ensures Apply(c, Patch(None, None, None)) == c
  {
  }

  /** Spreading the same patch twice is spreading it once. */
  lemma ApplyIdempotent(c: Counter, p: Patch)
    ensures Apply(Apply(c, p), p) == Apply(c, p)
  {
  }

  /** Two successive patches act as their merge, the later one winning field by field. */
  lemma ApplyThenApply(c: Counter, p: Patch, q: Patch)
    ensures Apply(Apply(c, p), q) == Apply(c, Merge(p, q))
  {
  }

  function MapUpdate(cs: seq<Counter>, id: string, updates: Patch): (r: seq<Counter>)
    ensures |r| == |cs|
    ensures forall i :: 0 <= i < |cs| ==> r[i] == if cs[i].id == id then Apply(cs[i], updates) else cs[i]
  {
    if cs == [] then []
    else [if cs[0].id == id then Apply(cs[0], updates) else cs[0]] + MapUpdate(cs[1..], id, updates)
  }

  /** `updateCounter`: the counters with the given id take the patch; the rest pass through unchanged. */
  function UpdateCounter(counters: Option<seq<Counter>>, id: string, updates: Patch): (r: seq<Counter>)
    ensures |r| == |Current(counters)|
    ensures forall i :: 0 <= i < |r| && Current(counters)[i].id != id ==> r[i] == Current(counters)[i]
    ensures forall i :: 0 <= i < |r| && Current(counters)[i].id == id ==> r[i] == Apply(Current(counters)[i], updates)
  {
    MapUpdate(Current(counters), id, updates)
  }

  /** Updating an id that is not in the list returns an equal list. */
  lemma UpdateUnknownIdIsIdentity(counters: Option<seq<Counter>>, id: string, updates: Patch)
    requires id !in Ids(Current(counters))
    ensures UpdateCounter(counters, id, updates) == Current(counters)
  {
    var cs := Current(counters);
    forall i | 0 <= i < |cs| ensures cs[i].id != id {
      assert cs[i] in cs;
    }
  }

  /** An update that does not touch `id` keeps the ids of the list, hence their uniqueness. */
  lemma UpdateKeepsIds(counters: Option<seq<Counter>>, id: string, updates: Patch)
    requires updates.id == None
    ensures forall i :: 0 <= i < |Current(counters)| ==>
      UpdateCounter(counters, id, updates)[i].id == Current(counters)[i].id
    ensures UniqueIds(Current(counters)) ==> UniqueIds(UpdateCounter(counters, id, updates))
  {
  }

  /** Number of counters carrying `id`. */
  function Occurrences(cs: seq<Counter>, id: string): nat {
    if cs == [] then 0 else (if cs[0].id == id then 1 else 0) + Occurrences(cs[1..], id)
  }

  /** `a` can be obtained from `b` by dropping elements (order kept). */
  predicate IsSubsequence(a: seq<Counter>, b: seq<Counter>)
    decreases |b|
  {
    if a == [] then true
    else if b == [] then false
    else if a[0] == b[0] then IsSubsequence(a[1..], b[1..])
    else IsSubsequence(a, b[1..])
  }

  function Filter(cs: seq<Counter>, id: string): (r: seq<Counter>)
    ensures forall i :: 0 <= i < |r| ==> r[i].id != id
    ensures IsSubsequence(r, cs)
    ensures |r| == |cs| - Occurrences(cs, id)
  {
    if cs == [] then []
    else if cs[0].id == id then Filter(cs[1..], id)
    else [cs[0]] + Filter(cs[1..], id)
  }

  /** `deleteCounter`: no counter with that id is left; the survivors are all the other
      counters, in their original order. */
  function DeleteCounter(counters: Option<seq<Counter>>, id: string): (r: seq<Counter>)
    ensures forall i :: 0 <= i < |r| ==> r[i].id != id
    ensures IsSubsequence(r, Current(counters))
    ensures |r| == |Current(counters)| - Occurrences(Current(counters), id)
  {
    Filter(Current(counters), id)
  }

  lemma {:induction false} NoOccurrences(cs: seq<Counter>, id: string)
    requires id !in Ids(cs)
    ensures Occurrences(cs, id) == 0
  {
    if cs != [] {
      assert cs[0] in cs;
      assert Ids(cs[1..]) <= Ids(cs) by {
        forall x | x in Ids(cs[1..]) ensures x in Ids(cs) {
          var c :| c in cs[1..] && c.id == x;
          assert c in cs;
        }
      }
      NoOccurrences(cs[1..], id);
    }
  }

  lemma {:induction false} SubsequenceOfSameLength(a: seq<Counter>, b: seq<Counter>)
    requires IsSubsequence(a, b) && |a| == |b|
    ensures a == b
  {
    if a != [] {
      if a[0] == b[0] {
        SubsequenceOfSameLength(a[1..], b[1..]);
      } else {
        SubsequenceIsNoLonger(a, b[1..]);
      }
    }
  }

  lemma {:induction false} SubsequenceIsNoLonger(a: seq<Counter>, b: seq<Counter>)
    requires IsSubsequence(a, b)
    ensures |a| <= |b|
    decreases |b|
  {
    if a != [] {
      if a[0] == b[0] { SubsequenceIsNoLonger(a[1..], b[1..]); } else { SubsequenceIsNoLonger(a, b[1..]); }
    }
  }

  /** Deleting an id that is not in the list returns an equal list. */
  lemma DeleteUnknownIdIsIdentity(counters: Option<seq<Counter>>, id: string)
    requires id !in Ids(Current(counters))
    ensures DeleteCounter(counters, id) == Current(counters)
  {
    NoOccurrences(Current(counters), id);
    SubsequenceOfSameLength(DeleteCounter(counters, id), Current(counters));
  }

  /** `findIndex(item => item.id === id)`: the first position holding `id`, or -1. */
  function FindIndex(cs: seq<Counter>, id: string): (r: int)
    ensures -1 <= r < |cs|
    ensures r >= 0 ==> cs[r].id == id && forall j :: 0 <= j < r ==> cs[j].id != id
    ensures r == -1 ==> forall j :: 0 <= j < |cs| ==> cs[j].id != id
  {
    if cs == [] then -1
    else if cs[0].id == id then 0
    else var k := FindIndex(cs[1..], id); if k == -1 then -1 else k + 1
  }

  function RemoveAt(s: seq<Counter>, i: nat): (r: seq<Counter>)
    requires i < |s|
    ensures |r| == |s| - 1
  {
    s[..i] + s[i + 1..]
  }

  /** `arrayMove(array, from, to)` of the sortable list: take the element at `from`
      out and put it back in at `to`. */
  function ArrayMove(s: seq<Counter>, from: nat, to: nat): (r: seq<Counter>)
    requires from < |s| && to < |s|
    ensures |r| == |s| && r[to] == s[from]
    ensures RemoveAt(r, to) == RemoveAt(s, from)
  {
    var t := RemoveAt(s, from);
    var r := t[..to] + [s[from]] + t[to..];
    assert r[..to] == t[..to] && r[to + 1..] == t[to..];
    r
  }

  /** Where every element of the result comes from: positions between the two
      indices shift by one towards `from`, all others keep their place. */
  lemma ArrayMoveShifts(s: seq<Counter>, from: nat, to: nat, i: nat)
    requires from < |s| && to < |s| && i < |s|
    ensures ArrayMove(s, from, to)[i] ==
      if i == to then s[from]
      else if from <= i < to then s[i + 1]
      else if to < i <= from then s[i - 1]
      else s[i]
  {
    var r := ArrayMove(s, from, to);
    if i != to {
      var k := if i < to then i else i - 1;
      assert r[i] == RemoveAt(r, to)[k];
      assert RemoveAt(s, from)[k] == if k < from then s[k] else s[k + 1];
    }
  }

  /** Moving changes the order only: the result is a permutation of the input. */
  lemma ArrayMovePermutes(s: seq<Counter>, from: nat, to: nat)
    requires from < |s| && to < |s|
    ensures multiset(ArrayMove(s, from, to)) == multiset(s)
  {
    var r := ArrayMove(s, from, to);
    assert r == r[..to] + [r[to]] + r[to + 1..];
    assert s == s[..from] + [s[from]] + s[from + 1..];
    calc {
      multiset(r);
      multiset(r[..to]) + multiset{s[from]} + multiset(r[to + 1..]);
      multiset(r[..to] + r[to + 1..]) + multiset{s[from]};
      multiset(RemoveAt(s, from)) + multiset{s[from]};
      multiset(s[..from]) + multiset(s[from + 1..]) + multiset{s[from]};
      multiset(s);
    }
  }

  /** Moving an element onto its own position changes nothing. */
  lemma ArrayMoveInPlace(s: seq<Counter>, i: nat)
    requires i < |s|
    ensures ArrayMove(s, i, i) == s
  {
    forall k | 0 <= k < |s| ensures ArrayMove(s, i, i)[k] == s[k] {
      ArrayMoveShifts(s, i, i, k);
    }
  }

  /** Moving back undoes a move. */
  lemma ArrayMoveUndo(s: seq<Counter>, from: nat, to: nat)
    requires from < |s| && to < |s|
    ensures ArrayMove(ArrayMove(s, from, to), to, from) == s
  {
    var r := ArrayMove(s, from, to);
    var b := ArrayMove(r, to, from);
    assert RemoveAt(b, from) == RemoveAt(s, from);
    assert b == b[..from] + [b[from]] + b[from + 1..];
    assert s == s[..from] + [s[from]] + s[from + 1..];
  }

  /** What `handleDragEnd` does with the list. */
  datatype DragOutcome =
    | NoWrite                                     // the drop target is the dragged item
    | Write(counters: seq<Counter>)               // the reordered list
    | UnresolvedIndex(oldIndex: int, newIndex: int) // arrayMove reached with an index of -1

  /** `handleDragEnd` as written: the guard only compares ids, so a drop outside every item
      (`over` is null) reaches `arrayMove` with `newIndex` equal to -1. */
  function HandleDragEnd(counters: Option<seq<Counter>>, activeId: string, overId: Option<string>): (r: DragOutcome)
    ensures overId == Some(activeId) <==> r.NoWrite?
    ensures r.Write? ==> multiset(r.counters) == multiset(Current(counters))
    ensures r.UnresolvedIndex? ==> r.oldIndex == -1 || r.newIndex == -1
  {
    if overId == Some(activeId) then NoWrite
    else
      var cs := Current(counters);
      var oldIndex := FindIndex(cs, activeId);
      var newIndex := if overId.Some? then FindIndex(cs, overId.value) else -1;
      if oldIndex >= 0 && newIndex >= 0 then
        ArrayMovePermutes(cs, oldIndex, newIndex);
        Write(ArrayMove(cs, oldIndex, newIndex))
      else UnresolvedIndex(oldIndex, newIndex)
  }

  /** Dropping a listed counter outside every item hands `arrayMove` the index -1. */
  lemma DropOutsideReachesMinusOne(a: Counter, b: Counter)
    requires a.id != b.id
    ensures HandleDragEnd(Some([a, b]), a.id, None) == UnresolvedIndex(0, -1)
  {
  }

  /** `handleDragEnd` with the guard `over && active.id !== over.id` it evidently intends:
      nothing is written unless both ids are found in the list and differ. */
  function HandleDragEndGuarded(counters: Option<seq<Counter>>, activeId: string, overId: Option<string>): (r: Option<seq<Counter>>)
    ensures r.Some? <==> overId.Some? && overId.value != activeId
                         && activeId in Ids(Current(counters)) && overId.value in Ids(Current(counters))
    ensures r.Some? ==> var cs := Current(counters);
      var from := FindIndex(cs, activeId);
      var to := FindIndex(cs, overId.value);
      0 <= from < |cs| && 0 <= to < |cs| && from != to
      && multiset(r.value) == multiset(cs)
      && r.value[to] == cs[from] && RemoveAt(r.value, to) == RemoveAt(cs, from)
  {
    var cs := Current(counters);
    if overId.None? || overId.value == activeId then None
    else
      var oldIndex := FindIndex(cs, activeId);
      var newIndex := FindIndex(cs, overId.value);
      FoundIffListed(cs, activeId);
      FoundIffListed(cs, overId.value);
      if oldIndex >= 0 && newIndex >= 0 then
        ArrayMovePermutes(cs, oldIndex, newIndex);
        Some(ArrayMove(cs, oldIndex, newIndex))
      else None
  }

  /** The handler as written and the guarded one agree whenever the former writes: both
      write exactly when both ids are listed and differ, and then the same list. */
  lemma DragEndAgreesWhenWriting(counters: Option<seq<Counter>>, activeId: string, overId: Option<string>)
    ensures HandleDragEnd(counters, activeId, overId).Write? <==> HandleDragEndGuarded(counters, activeId, overId).Some?
    ensures HandleDragEnd(counters, activeId, overId).Write? ==>
      HandleDragEnd(counters, activeId, overId).counters == HandleDragEndGuarded(counters, activeId, overId).value
  {
    var cs := Current(counters);
    var from := FindIndex(cs, activeId);
    if overId.Some? && overId.value != activeId {
      var to := FindIndex(cs, overId.value);
      FoundIffListed(cs, activeId);
      FoundIffListed(cs, overId.value);
      if from >= 0 && to >= 0 {
        assert HandleDragEnd(counters, activeId, overId) == Write(ArrayMove(cs, from, to));
        assert HandleDragEndGuarded(counters, activeId, overId) == Some(ArrayMove(cs, from, to));
      } else {
        assert HandleDragEnd(counters, activeId, overId) == UnresolvedIndex(from, to);
        assert HandleDragEndGuarded(counters, activeId, overId) == None;
      }
    } else if overId.None? {
      assert HandleDragEnd(counters, activeId, overId) == UnresolvedIndex(from, -1);
    }
  }

  lemma FoundIffListed(cs: seq<Counter>, id: string)
    ensures FindIndex(cs, id) >= 0 <==> id in Ids(cs)
  {
  }

  function MapReset(cs: seq<Counter>): (r: seq<Counter>)
    ensures |r| == |cs|
    ensures forall i :: 0 <= i < |cs| ==> r[i] == cs[i].(count := 0)
  {
    if cs == [] then [] else [cs[0].(count := 0)] + MapReset(cs[1..])
  }

  /** `resetAllCounts`: same counters, same order, same ids and names, every count 0. */
  function ResetAllCounts(counters: Option<seq<Counter>>): (r: seq<Counter>)
    ensures |r| == |Current(counters)|
    ensures forall i :: 0 <= i < |r| ==>
      r[i].id == Current(counters)[i].id && r[i].name == Current(counters)[i].name && r[i].count == 0
  {
    MapReset(Current(counters))
  }

  /** Resetting twice is resetting once. */
  lemma ResetIdempotent(counters: Option<seq<Counter>>)
    ensures ResetAllCounts(Some(ResetAllCounts(counters))) == ResetAllCounts(counters)
  {
  }

  /** The page's handler for a card's request. */
  function HandleRequest(counters: Option<seq<Counter>>, req: Request): seq<Counter> {
    match req
    case UpdateRequest(id, patch) => UpdateCounter(counters, id, patch)
    case DeleteRequest(id) => DeleteCounter(counters, id)
  }
}
