/**
  The breakpoint store: per-file ordered breakpoint records plus the
  process-wide id counter. Paths are used as given; the runtime normalises
  them before they reach the store.
 */
module Breakpoints {
  import opened Wrappers

  datatype Breakpoint = Breakpoint(id: int, line: int, verified: bool, condition: Option<string>)

  datatype Store = Store(files: map<string, seq<Breakpoint>>, nextId: int)

  /** The counter starts at 1 and no file has breakpoints. */
  const Initial := Store(map[], 1)

  /** The ids of a file's records, in order. */
  function Ids(bps: seq<Breakpoint>): (r: seq<int>)
    ensures |r| == |bps| && forall k :: 0 <= k < |bps| ==> r[k] == bps[k].id
  {
    seq(|bps|, k requires 0 <= k < |bps| => bps[k].id)
  }

  /** Every id lies in [1, n). */
  ghost predicate IdsBelow(ids: seq<int>, n: int) {
    forall x :: x in ids ==> 1 <= x < n
  }

  ghost predicate Increasing(ids: seq<int>) {
    forall k, l :: 0 <= k < l < |ids| ==> ids[k] < ids[l]
  }

  /** No id occurs in both sequences. */
  ghost predicate Disjoint(a: seq<int>, b: seq<int>) {
    forall x :: x in a ==> x !in b
  }

  /**
    Every id handed out lies below the counter, ids grow along each file's
    sequence, and no id appears in two files.
   */
  ghost predicate Valid(s: Store) {
    && s.nextId >= 1
    && (forall p :: p in s.files ==> IdsBelow(Ids(s.files[p]), s.nextId) && Increasing(Ids(s.files[p])))
    && (forall p, q :: p in s.files && q in s.files && p != q ==> Disjoint(Ids(s.files[p]), Ids(s.files[q])))
  }

  lemma InitialValid()
    ensures Valid(Initial)
  {
  }

  function FileOf(s: Store, path: string): seq<Breakpoint> {
    if path in s.files then s.files[path] else []
  }

  predicate HasLine(bps: seq<Breakpoint>, line: int) {
    exists i :: 0 <= i < |bps| && bps[i].line == line
  }

  /** The store-level answer to "is there a breakpoint at this line of this file?". */
  predicate Contains(s: Store, path: string, line: int) {
    path in s.files && HasLine(s.files[path], line)
  }

  /** The allocation half of `setBreakPoint`: a fresh unverified record appended to the file. */
  function Add(s: Store, path: string, line: int, condition: Option<string>): (r: (Store, Breakpoint))
    ensures r.1 == Breakpoint(s.nextId, line, false, condition)
    ensures r.0.nextId == s.nextId + 1
    ensures r.0.files.Keys == s.files.Keys + {path}
    ensures r.0.files[path] == FileOf(s, path) + [r.1]
    ensures forall p :: p in s.files && p != path ==> r.0.files[p] == s.files[p]
    ensures Valid(s) ==> Valid(r.0)
  {
    var bp := Breakpoint(s.nextId, line, false, condition);
    var r := Store(s.files[path := FileOf(s, path) + [bp]], s.nextId + 1);
    assert Valid(s) ==> Valid(r) by {
      if Valid(s) { AddValid(s, path, bp, r); }
    }
    (r, bp)
  }

  lemma AddValid(s: Store, path: string, bp: Breakpoint, r: Store)
    requires Valid(s) && bp.id == s.nextId
    requires r == Store(s.files[path := FileOf(s, path) + [bp]], s.nextId + 1)
    ensures Valid(r)
  {
    var before := Ids(FileOf(s, path));
    var after := Ids(r.files[path]);
    assert after == before + [bp.id];
    assert IdsBelow(before, s.nextId) && Increasing(before);
    assert forall k :: 0 <= k < |before| ==> before[k] in before;
    forall p | p in r.files
      ensures IdsBelow(Ids(r.files[p]), r.nextId) && Increasing(Ids(r.files[p]))
    {
      if p != path { assert IdsBelow(Ids(s.files[p]), s.nextId); }
    }
    forall p, q | p in r.files && q in r.files && p != q
      ensures Disjoint(Ids(r.files[p]), Ids(r.files[q]))
    {
      if p == path {
        assert IdsBelow(Ids(s.files[q]), s.nextId);
        if path in s.files { assert Disjoint(Ids(s.files[p]), Ids(s.files[q])); }
      } else if q == path {
        assert IdsBelow(Ids(s.files[p]), s.nextId);
        if path in s.files { assert Disjoint(Ids(s.files[p]), Ids(s.files[q])); }
      } else {
        assert Disjoint(Ids(s.files[p]), Ids(s.files[q]));
      }
    }
  }

  /** The verification half of `setBreakPoint`: only the flag of the record `id` is set. */
  function MarkVerified(s: Store, path: string, id: int): (r: Store)
    ensures r.nextId == s.nextId && r.files.Keys == s.files.Keys
    ensures forall p :: p in s.files && p != path ==> r.files[p] == s.files[p]
    ensures path in s.files ==> |r.files[path]| == |s.files[path]|
    ensures path in s.files ==> forall i :: 0 <= i < |s.files[path]| ==>
      && r.files[path][i].id == s.files[path][i].id
      && r.files[path][i].line == s.files[path][i].line
      && r.files[path][i].condition == s.files[path][i].condition
      && r.files[path][i].verified == (s.files[path][i].verified || s.files[path][i].id == id)
    ensures path !in s.files ==> r == s
    ensures Valid(s) ==> Valid(r)
  {
    if path !in s.files then s
    else
      var bps := s.files[path];
      var marked := seq(|bps|, i requires 0 <= i < |bps| =>
        if bps[i].id == id then bps[i].(verified := true) else bps[i]);
      var r := Store(s.files[path := marked], s.nextId);
      assert Ids(marked) == Ids(bps);
      assert forall p :: p in r.files ==> Ids(r.files[p]) == Ids(s.files[p]);
      r
  }

  /** `findIndex(bp => bp.line === line)`. */
  function FindLine(bps: seq<Breakpoint>, line: int): (i: int)
    ensures -1 <= i < |bps|
    ensures i >= 0 ==> bps[i].line == line && forall k :: 0 <= k < i ==> bps[k].line != line
    ensures i == -1 <==> !HasLine(bps, line)
    decreases |bps|
  {
    if |bps| == 0 then -1
    else if bps[0].line == line then 0
    else
      var k := FindLine(bps[1..], line);
      assert forall j :: 0 <= j < |bps| - 1 ==> bps[1..][j] == bps[j + 1];
      if k == -1 then -1 else k + 1
  }

  /** The store half of `clearBreakpoint`: the first record at `line` is spliced out and returned. */
  function RemoveFirst(s: Store, path: string, line: int): (r: (Store, Option<Breakpoint>))
    ensures r.1.None? <==> !Contains(s, path, line)
    ensures r.1.None? ==> r.0 == s
    ensures r.1.Some? ==> exists i ::
      && 0 <= i < |s.files[path]|
      && s.files[path][i] == r.1.value
      && r.1.value.line == line
      && (forall k :: 0 <= k < i ==> s.files[path][k].line != line)
      && r.0.files == s.files[path := s.files[path][..i] + s.files[path][i + 1..]]
    ensures r.0.nextId == s.nextId
    ensures Valid(s) ==> Valid(r.0)
  {
    if path !in s.files then (s, None)
    else
      var bps := s.files[path];
      var i := FindLine(bps, line);
      if i < 0 then (s, None)
      else
        var r := Store(s.files[path := bps[..i] + bps[i + 1..]], s.nextId);
        assert Valid(s) ==> Valid(r) by {
          if Valid(s) { RemoveValid(s, path, i, r); }
        }
        (r, Some(bps[i]))
  }

  lemma RemoveValid(s: Store, path: string, i: int, r: Store)
    requires Valid(s) && path in s.files && 0 <= i < |s.files[path]|
    requires r == Store(s.files[path := s.files[path][..i] + s.files[path][i + 1..]], s.nextId)
    ensures Valid(r)
  {
    var before := Ids(s.files[path]);
    var after := Ids(r.files[path]);
    RemoveKeepsIncreasing(s.files[path], i);
    assert IdsBelow(before, s.nextId);
    forall p | p in r.files
      ensures IdsBelow(Ids(r.files[p]), r.nextId) && Increasing(Ids(r.files[p]))
    {
      if p != path { assert IdsBelow(Ids(s.files[p]), s.nextId); }
      else {
        assert r.files[p] == s.files[path][..i] + s.files[path][i + 1..];
        assert forall x :: x in Ids(r.files[p]) ==> x in before;
      }
    }
    forall p, q | p in r.files && q in r.files && p != q
      ensures Disjoint(Ids(r.files[p]), Ids(r.files[q]))
    {
      assert Disjoint(Ids(s.files[p]), Ids(s.files[q]));
    }
  }

  /** Splicing out one record keeps ids increasing and introduces no new id. */
  lemma RemoveKeepsIncreasing(bps: seq<Breakpoint>, i: int)
    requires 0 <= i < |bps| && Increasing(Ids(bps))
    ensures Increasing(Ids(bps[..i] + bps[i + 1..]))
    ensures forall x :: x in Ids(bps[..i] + bps[i + 1..]) ==> x in Ids(bps)
  {
    var before := Ids(bps);
    var after := Ids(bps[..i] + bps[i + 1..]);
    assert forall k :: 0 <= k < |after| ==> after[k] == before[Shift(k, i)];
    forall k, l | 0 <= k < l < |after| ensures after[k] < after[l] {
      assert after[k] == before[Shift(k, i)] && after[l] == before[Shift(l, i)];
    }
  }

  /** The index in the original sequence of position `k` after removing position `i`. */
  function Shift(k: int, i: int): int {
    if k < i then k else k + 1
  }

  /** The store half of `clearAllBreakpoints`: the file's sequence is dropped. */
  function RemoveFile(s: Store, path: string): (r: Store)
    ensures path !in r.files
    ensures r.files.Keys == s.files.Keys - {path}
    ensures forall p :: p in r.files ==> r.files[p] == s.files[p]
    ensures r.nextId == s.nextId
    ensures forall line :: !Contains(r, path, line)
    ensures Valid(s) ==> Valid(r)
  {
    Store(s.files - {path}, s.nextId)
  }

  /** One step of a session's use of the store. */
  datatype StoreOp =
    | AddOp(path: string, line: int, condition: Option<string>)
    | VerifyOp(path: string, id: int)
    | RemoveOp(path: string, line: int)
    | RemoveFileOp(path: string)

  function Apply(s: Store, op: StoreOp): (r: Store)
    ensures Valid(s) ==> Valid(r)
    ensures r.nextId == s.nextId + (if op.AddOp? then 1 else 0)
  {
    match op
    case AddOp(p, l, c) => Add(s, p, l, c).0
    case VerifyOp(p, id) => MarkVerified(s, p, id)
    case RemoveOp(p, l) => RemoveFirst(s, p, l).0
    case RemoveFileOp(p) => RemoveFile(s, p)
  }

  /** The ids handed to the `AddOp`s of `ops`, in order. */
  function IssuedIds(s: Store, ops: seq<StoreOp>): seq<int>
    decreases |ops|
  {
    if |ops| == 0 then []
    else
      var here := if ops[0].AddOp? then [Add(s, ops[0].path, ops[0].line, ops[0].condition).1.id] else [];
      here + IssuedIds(Apply(s, ops[0]), ops[1..])
  }

  function Run(s: Store, ops: seq<StoreOp>): Store
    decreases |ops|
  {
    if |ops| == 0 then s else Run(Apply(s, ops[0]), ops[1..])
  }

  /** Every operation keeps the store valid, so any sequence of them does. */
  lemma {:induction false} RunValid(s: Store, ops: seq<StoreOp>)
    requires Valid(s)
    ensures Valid(Run(s, ops))
    decreases |ops|
  {
    if |ops| > 0 {
      RunValid(Apply(s, ops[0]), ops[1..]);
    }
  }

  /** Every id lies in [lo, hi). */
  ghost predicate Within(ids: seq<int>, lo: int, hi: int) {
    forall k :: 0 <= k < |ids| ==> lo <= ids[k] < hi
  }

  /** Putting a smaller id in front of an increasing run keeps it increasing. */
  lemma PrependIncreasing(x: int, tail: seq<int>, hi: int)
    requires x < hi && Increasing(tail) && Within(tail, x + 1, hi)
    ensures Increasing([x] + tail) && Within([x] + tail, x, hi)
  {
    var ids := [x] + tail;
    forall k, l | 0 <= k < l < |ids|
      ensures ids[k] < ids[l]
    {
      if k > 0 { assert ids[k] == tail[k - 1]; }
      assert ids[l] == tail[l - 1];
    }
    forall k | 0 <= k < |ids|
      ensures x <= ids[k] < hi
    {
      if k > 0 { assert ids[k] == tail[k - 1]; }
    }
  }

  /** One step of `Run` and `IssuedIds`. */
  lemma RunStep(s: Store, ops: seq<StoreOp>)
    requires |ops| > 0
    ensures Run(s, ops) == Run(Apply(s, ops[0]), ops[1..])
    ensures IssuedIds(s, ops) ==
      (if ops[0].AddOp? then [s.nextId] else []) + IssuedIds(Apply(s, ops[0]), ops[1..])
  {
  }

  /**
    Across any sequence of store operations the ids handed out are strictly
    increasing, start at the counter's value and stay below its final value:
    ids are never reused.
   */
  lemma {:induction false} IdsStrictlyIncrease(s: Store, ops: seq<StoreOp>)
    ensures Increasing(IssuedIds(s, ops))
    ensures Within(IssuedIds(s, ops), s.nextId, Run(s, ops).nextId)
    ensures Run(s, ops).nextId >= s.nextId
    decreases |ops|
  {
    if |ops| > 0 {
      var s' := Apply(s, ops[0]);
      IdsStrictlyIncrease(s', ops[1..]);
      RunStep(s, ops);
      if ops[0].AddOp? {
        PrependIncreasing(s.nextId, IssuedIds(s', ops[1..]), Run(s, ops).nextId);
      } else {
        assert IssuedIds(s, ops) == IssuedIds(s', ops[1..]);
      }
    }
  }
}
