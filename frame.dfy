/**
 * A JSON document as the library behind the source (nlohmann::json) builds
 * it with chained `j[k1][k2]...[kn] = v` assignments: a document is the map
 * from the key path of every leaf to that leaf. An assignment turns a null
 * (absent) intermediate into an object, throws when it has to step through
 * a leaf, and replaces the whole subtree at its path.
 */
module Frame {
  import opened Wrappers

  /** A leaf value. */
  datatype Value = Bool(b: bool) | Int(i: int) | Num(r: real) | Str(s: string)

  /** A key path; every assignment in the source names at least one key. */
  type Path = p: seq<string> | |p| > 0 witness [""]

  /** A document: leaf paths to leaves. */
  type Doc = map<Path, Value>

  /** One assignment `j[path] = value`. */
  datatype Op = Op(path: Path, value: Value)

  /**
   * `j[p] = v`. It throws (None) exactly when a leaf sits on a proper prefix
   * of p; otherwise p holds v afterwards, every leaf that p does not cover
   * survives unchanged, and nothing else is in the result.
   */
  function Put(d: Doc, p: Path, v: Value): (r: Option<Doc>)
    ensures r.None? <==> exists q :: q in d && q < p
    ensures r.Some? ==> p in r.value && r.value[p] == v
    ensures r.Some? ==> forall q :: q in d && !(p <= q) ==> q in r.value && r.value[q] == d[q]
    ensures r.Some? ==> forall q :: q in r.value ==> q == p || (q in d && !(p <= q))
  {
    if exists q :: q in d && q < p then None
    else Some((map q | q in d && !(p <= q) :: d[q])[p := v])
  }

  /** A sequence of assignments in program order; the first throw aborts the rest. */
  function Apply(d: Doc, ops: seq<Op>): Option<Doc>
    decreases |ops|
  {
    if ops == [] then Some(d)
    else match Put(d, ops[0].path, ops[0].value)
      case None => None
      case Some(d') => Apply(d', ops[1..])
  }

  /** Running two blocks of assignments is running the first, then the second on its result. */
  lemma {:induction false} ApplyConcat(d: Doc, a: seq<Op>, b: seq<Op>)
    ensures Apply(d, a + b) == match Apply(d, a) case None => None case Some(d') => Apply(d', b)
    decreases |a|
  {
    if a == [] {
      assert a + b == b;
    } else {
      assert (a + b)[0] == a[0];
      assert (a + b)[1..] == a[1..] + b;
      match Put(d, a[0].path, a[0].value)
      case None =>
      case Some(d') => ApplyConcat(d', a[1..], b);
    }
  }

  /** Neither path is a prefix of the other (so in particular they differ). */
  predicate Incomparable(p: seq<string>, q: seq<string>)
  {
    !(p <= q) && !(q <= p)
  }

  /** No path of the block is a prefix of another one: no assignment covers or crosses another. */
  predicate PrefixFree(ops: seq<Op>)
  {
    forall i, j :: 0 <= i < |ops| && 0 <= j < |ops| && i != j ==> Incomparable(ops[i].path, ops[j].path)
  }

  /** The document a block of assignments describes when no two of them interfere. */
  function OpsMap(ops: seq<Op>): Doc
  {
    if ops == [] then map[] else OpsMap(ops[1..])[ops[0].path := ops[0].value]
  }

  /** The leaves of OpsMap(ops) are exactly the paths the block assigns. */
  lemma {:induction false} OpsMapKeys(ops: seq<Op>)
    ensures forall p :: p in OpsMap(ops) <==> exists i :: 0 <= i < |ops| && ops[i].path == p
  {
    if ops != [] {
      OpsMapKeys(ops[1..]);
      forall p | p in OpsMap(ops)
        ensures exists i :: 0 <= i < |ops| && ops[i].path == p
      {
        if p != ops[0].path {
          assert p in OpsMap(ops[1..]);
          var i :| 0 <= i < |ops[1..]| && ops[1..][i].path == p;
          assert ops[i + 1].path == p;
        }
      }
      forall p, i | 0 <= i < |ops| && ops[i].path == p
        ensures p in OpsMap(ops)
      {
        if i > 0 {
          assert ops[1..][i - 1].path == p;
        }
      }
    }
  }

  /** The tail of a prefix-free block is prefix-free. */
  lemma TailPrefixFree(ops: seq<Op>)
    requires ops != [] && PrefixFree(ops)
    ensures PrefixFree(ops[1..])
  {
    forall i, j | 0 <= i < |ops[1..]| && 0 <= j < |ops[1..]| && i != j
      ensures Incomparable(ops[1..][i].path, ops[1..][j].path)
    {
      assert ops[1..][i] == ops[i + 1] && ops[1..][j] == ops[j + 1];
    }
  }

  /** In a prefix-free block every assignment is what OpsMap holds at its path. */
  lemma {:induction false} OpsMapAt(ops: seq<Op>, i: nat)
    requires PrefixFree(ops) && i < |ops|
    ensures ops[i].path in OpsMap(ops) && OpsMap(ops)[ops[i].path] == ops[i].value
  {
    if i > 0 {
      TailPrefixFree(ops);
      OpsMapAt(ops[1..], i - 1);
      assert ops[1..][i - 1] == ops[i];
      assert Incomparable(ops[0].path, ops[i].path);
    }
  }

  /** An assignment to a path that no leaf covers or crosses just adds that leaf. */
  lemma PutFresh(d: Doc, p: Path, v: Value)
    requires forall q :: q in d ==> Incomparable(q, p)
    ensures Put(d, p, v) == Some(d[p := v])
  {
    assert !exists q :: q in d && q < p;
    var kept := map q | q in d && !(p <= q) :: d[q];
    assert kept == d;
  }

  /** A path assigned by none of the block's assignments is not a leaf of OpsMap. */
  lemma OpsMapMissing(ops: seq<Op>, p: Path)
    requires forall i :: 0 <= i < |ops| ==> ops[i].path != p
    ensures p !in OpsMap(ops)
  {
    OpsMapKeys(ops);
  }

  /**
   * Running a prefix-free block on a document whose leaves it never covers or
   * crosses cannot throw, and adds exactly the block's leaves.
   */
  lemma {:induction false} ApplyPrefixFree(d: Doc, ops: seq<Op>)
    requires PrefixFree(ops)
    requires forall q, i :: q in d && 0 <= i < |ops| ==> Incomparable(q, ops[i].path)
    ensures Apply(d, ops) == Some(d + OpsMap(ops))
    decreases |ops|
  {
    if ops == [] {
      assert d + map[] == d;
    } else {
      var o := ops[0];
      var rest := ops[1..];
      PutFresh(d, o.path, o.value);
      var d1 := d[o.path := o.value];
      TailPrefixFree(ops);
      FreshForRest(d, ops);
      ApplyPrefixFree(d1, rest);
      HeadNotInRest(ops);
      MergeHead(d, ops);
    }
  }

  /** Adding the first leaf, then the rest of the block's leaves, adds all of them. */
  lemma MergeHead(d: Doc, ops: seq<Op>)
    requires ops != []
    requires forall i :: 0 <= i < |ops[1..]| ==> ops[1..][i].path != ops[0].path
    ensures d[ops[0].path := ops[0].value] + OpsMap(ops[1..]) == d + OpsMap(ops)
  {
    var o := ops[0];
    OpsMapMissing(ops[1..], o.path);
    assert OpsMap(ops) == OpsMap(ops[1..])[o.path := o.value];
  }

  /** After the first assignment, no leaf covers or crosses a later one. */
  lemma FreshForRest(d: Doc, ops: seq<Op>)
    requires ops != [] && PrefixFree(ops)
    requires forall q, i :: q in d && 0 <= i < |ops| ==> Incomparable(q, ops[i].path)
    ensures forall q, i :: q in d[ops[0].path := ops[0].value] && 0 <= i < |ops[1..]| ==> Incomparable(q, ops[1..][i].path)
  {
    var o := ops[0];
    var rest := ops[1..];
    forall q, i | q in d[o.path := o.value] && 0 <= i < |rest|
      ensures Incomparable(q, rest[i].path)
    {
      assert rest[i] == ops[i + 1];
      if q != o.path {
        assert Incomparable(q, ops[i + 1].path);
      } else {
        assert Incomparable(ops[0].path, ops[i + 1].path);
      }
    }
  }

  /** In a prefix-free block no later assignment repeats the first one's path. */
  lemma HeadNotInRest(ops: seq<Op>)
    requires ops != [] && PrefixFree(ops)
    ensures forall i :: 0 <= i < |ops[1..]| ==> ops[1..][i].path != ops[0].path
  {
    forall i | 0 <= i < |ops[1..]|
      ensures ops[1..][i].path != ops[0].path
    {
      assert ops[1..][i] == ops[i + 1];
      assert Incomparable(ops[0].path, ops[i + 1].path);
    }
  }

  /** The same block run on the empty document. */
  lemma ApplyPrefixFreeEmpty(ops: seq<Op>)
    requires PrefixFree(ops)
    ensures Apply(map[], ops) == Some(OpsMap(ops))
  {
    ApplyPrefixFree(map[], ops);
    assert map[] + OpsMap(ops) == OpsMap(ops);
  }

  /** Every path of a block, extended in front by the key k: `j[k][path] = value`. */
  function Prefixed(k: string, ops: seq<Op>): (r: seq<Op>)
    ensures |r| == |ops|
    ensures forall i :: 0 <= i < |ops| ==> r[i] == Op([k] + ops[i].path, ops[i].value)
  {
    seq(|ops|, i requires 0 <= i < |ops| => Op([k] + ops[i].path, ops[i].value))
  }

  /** Two paths that differ at a common position are incomparable. */
  lemma DifferAt(p: seq<string>, q: seq<string>, i: nat)
    requires i < |p| && i < |q| && p[i] != q[i]
    ensures Incomparable(p, q)
  {
  }

  /** A common first key does not change whether one path is a prefix of another. */
  lemma PrefixCons(k: string, p: seq<string>, q: seq<string>)
    ensures ([k] + p <= [k] + q) <==> (p <= q)
  {
    if [k] + p <= [k] + q {
      assert ([k] + q)[..|[k] + p|] == [k] + q[..|p|];
      assert [k] + p == [k] + q[..|p|];
      assert p == ([k] + p)[1..] == ([k] + q[..|p|])[1..] == q[..|p|];
    }
    if p <= q {
      assert ([k] + q)[..|[k] + p|] == [k] + q[..|p|];
    }
  }

  /** Extending every path with the same first key keeps a block prefix-free. */
  lemma PrefixedPrefixFree(k: string, ops: seq<Op>)
    requires PrefixFree(ops)
    ensures PrefixFree(Prefixed(k, ops))
  {
    var r := Prefixed(k, ops);
    forall i, j | 0 <= i < |r| && 0 <= j < |r| && i != j
      ensures Incomparable(r[i].path, r[j].path)
    {
      PrefixCons(k, ops[i].path, ops[j].path);
      PrefixCons(k, ops[j].path, ops[i].path);
    }
  }

  /** Two prefix-free blocks whose paths are pairwise incomparable form a prefix-free block. */
  lemma PrefixFreeConcat(a: seq<Op>, b: seq<Op>)
    requires PrefixFree(a) && PrefixFree(b)
    requires forall i, j :: 0 <= i < |a| && 0 <= j < |b| ==> Incomparable(a[i].path, b[j].path)
    ensures PrefixFree(a + b)
  {
    var c := a + b;
    forall i, j | 0 <= i < |c| && 0 <= j < |c| && i != j
      ensures Incomparable(c[i].path, c[j].path)
    {
      if i < |a| && j < |a| {
        assert c[i] == a[i] && c[j] == a[j];
      } else if i < |a| {
        assert c[i] == a[i] && c[j] == b[j - |a|];
      } else if j < |a| {
        assert c[i] == b[i - |a|] && c[j] == a[j];
      } else {
        assert c[i] == b[i - |a|] && c[j] == b[j - |a|];
      }
    }
  }

  // ---- Blocks of assignments on an optional document ----

  /** An assignment on an optional document: a throw stays a throw. */
  function Step(od: Option<Doc>, o: Op): Option<Doc>
  {
    match od
    case None => None
    case Some(d) => Put(d, o.path, o.value)
  }

  /** A block on an optional document. */
  function ApplyOpt(od: Option<Doc>, ops: seq<Op>): Option<Doc>
  {
    match od
    case None => None
    case Some(d) => Apply(d, ops)
  }

  /** Running a block and then one more assignment. */
  lemma ApplyOptSnoc(od: Option<Doc>, a: seq<Op>, o: Op)
    ensures ApplyOpt(od, a + [o]) == Step(ApplyOpt(od, a), o)
  {
    if od.Some? {
      ApplyConcat(od.value, a, [o]);
      match Put(od.value, o.path, o.value) {
        case None =>
        case Some(d') => assert Apply(d', []) == Some(d');
      }
      if Apply(od.value, a).Some? {
        var d1 := Apply(od.value, a).value;
        assert [o][1..] == [];
        match Put(d1, o.path, o.value) {
          case None =>
          case Some(d') => assert Apply(d', []) == Some(d');
        }
      }
    }
  }

  /** Running two blocks one after the other. */
  lemma ApplyOptConcat(od: Option<Doc>, a: seq<Op>, b: seq<Op>)
    ensures ApplyOpt(od, a + b) == ApplyOpt(ApplyOpt(od, a), b)
  {
    if od.Some? {
      ApplyConcat(od.value, a, b);
    }
  }

  /** Prefixing distributes over concatenation. */
  lemma PrefixedConcat(k: string, a: seq<Op>, b: seq<Op>)
    ensures Prefixed(k, a + b) == Prefixed(k, a) + Prefixed(k, b)
  {
    assert |Prefixed(k, a + b)| == |Prefixed(k, a) + Prefixed(k, b)|;
    forall i | 0 <= i < |a + b|
      ensures Prefixed(k, a + b)[i] == (Prefixed(k, a) + Prefixed(k, b))[i]
    {
      if i < |a| {
        assert (a + b)[i] == a[i];
      } else {
        assert (a + b)[i] == b[i - |a|];
      }
    }
  }

  /** Every assignment of the block has the same first key. */
  predicate HeadsAre(ops: seq<Op>, k: string)
  {
    forall i :: 0 <= i < |ops| ==> ops[i].path[0] == k
  }

  /** Every assignment of the block has its first key in S. */
  predicate HeadsIn(ops: seq<Op>, s: set<string>)
  {
    forall i :: 0 <= i < |ops| ==> ops[i].path[0] in s
  }

  /** Assignments whose paths differ in their first key never interfere. */
  lemma HeadsApart(a: seq<Op>, b: seq<Op>, sa: set<string>, sb: set<string>)
    requires HeadsIn(a, sa) && HeadsIn(b, sb) && sa !! sb
    ensures forall i, j :: 0 <= i < |a| && 0 <= j < |b| ==> Incomparable(a[i].path, b[j].path)
  {
    forall i, j | 0 <= i < |a| && 0 <= j < |b|
      ensures Incomparable(a[i].path, b[j].path)
    {
      DifferAt(a[i].path, b[j].path, 0);
    }
  }

  /** One more assignment of a block. */
  lemma StepInto(od: Option<Doc>, ops: seq<Op>, i: nat)
    requires i < |ops|
    ensures ApplyOpt(od, ops[..i + 1]) == Step(ApplyOpt(od, ops[..i]), ops[i])
  {
    assert ops[..i + 1] == ops[..i] + [ops[i]];
    ApplyOptSnoc(od, ops[..i], ops[i]);
  }

  /** A one-assignment block. */
  lemma StepOnly(od: Option<Doc>, o: Op)
    ensures ApplyOpt(od, [o]) == Step(od, o)
  {
    ApplyOptSnoc(od, [], o);
    assert [] + [o] == [o];
    if od.Some? {
      assert Apply(od.value, []) == od;
    }
  }

  /** The empty block changes nothing. */
  lemma ApplyOptEmpty(od: Option<Doc>)
    ensures ApplyOpt(od, []) == od
  {
    if od.Some? {
      assert Apply(od.value, []) == od;
    }
  }

  /** An assignment of a prefix-free block is what the document holds at its path. */
  lemma InBlock(ops: seq<Op>, o: Op)
    requires PrefixFree(ops) && o in ops
    ensures o.path in OpsMap(ops) && OpsMap(ops)[o.path] == o.value
  {
    var i :| 0 <= i < |ops| && ops[i] == o;
    OpsMapAt(ops, i);
  }

  /** An assignment of a block, below a first key, is an assignment of the prefixed block. */
  lemma InPrefixed(k: string, ops: seq<Op>, o: Op)
    requires o in ops
    ensures Op([k] + o.path, o.value) in Prefixed(k, ops)
  {
    var i :| 0 <= i < |ops| && ops[i] == o;
    assert Prefixed(k, ops)[i] == Op([k] + o.path, o.value);
  }

  /** First keys of a concatenation come from either part. */
  lemma HeadsInConcat(a: seq<Op>, b: seq<Op>, sa: set<string>, sb: set<string>)
    requires HeadsIn(a, sa) && HeadsIn(b, sb)
    ensures HeadsIn(a + b, sa + sb)
  {
    forall i | 0 <= i < |a + b|
      ensures (a + b)[i].path[0] in sa + sb
    {
      if i < |a| {
        assert (a + b)[i] == a[i];
      } else {
        assert (a + b)[i] == b[i - |a|];
      }
    }
  }

  /** Every assignment of a prefixed block has that key first. */
  lemma PrefixedHeads(k: string, ops: seq<Op>)
    ensures HeadsIn(Prefixed(k, ops), {k})
  {
  }
}
