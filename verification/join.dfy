/**
  The full outer merge of the two tables on the receipt code
  (`pd.merge(df_a, df_b, on="NOTA", how="outer")`, app.py line 103 and
  comparador_de_notas.py line 45).  Keys come out in lexicographic order; under each
  key every A row is paired with every B row (a repeated code multiplies rows), and
  a key present on one side only yields that side's rows paired with nothing.
 */
module Join {
  import opened Options
  import opened Seqs
  import opened Records
  import opened Checks

  /** One merged row: the shared code and the A-side and B-side records, either possibly
      absent (all their columns NaN). */
  datatype Merged = Merged(code: string, a: Option<Record>, b: Option<Record>)

  function CodeCount(t: Table, k: string): nat {
    multiset(Codes(t))[k]
  }

  /** The rows of `t` with code `k`, in table order. */
  function WithCode(t: Table, k: string): (r: Table)
    ensures forall x :: x in r <==> x in t && x.code == k
    ensures forall x :: multiset(r)[x] == if x.code == k then multiset(t)[x] else 0
  {
    Filter(t, (x: Record) => x.code == k)
  }

  lemma {:induction false} WithCodeCount(t: Table, k: string)
    ensures |WithCode(t, k)| == CodeCount(t, k)
    decreases |t|
  {
    if |t| > 0 {
      var p := (x: Record) => x.code == k;
      assert Codes(t) == [t[0].code] + Codes(t[1..]);
      assert multiset(Codes(t))[k] == (if t[0].code == k then 1 else 0) + multiset(Codes(t[1..]))[k];
      assert |Filter(t, p)| == (if p(t[0]) then 1 else 0) + |Filter(t[1..], p)|;
      WithCodeCount(t[1..], k);
    }
  }

  function LeftOnly(k: string, xs: Table): (r: seq<Merged>)
    ensures |r| == |xs|
    ensures forall m :: m in r <==> exists x :: x in xs && m == Merged(k, Some(x), None)
    ensures forall m :: multiset(r)[m] == if m.code == k && m.a.Some? && m.b.None? then multiset(xs)[m.a.value] else 0
  {
    var f := (x: Record) => Merged(k, Some(x), None);
    var r := Map(xs, f);
    assert forall m :: multiset(r)[m] == if m.code == k && m.a.Some? && m.b.None? then multiset(xs)[m.a.value] else 0 by {
      forall m ensures multiset(r)[m] == if m.code == k && m.a.Some? && m.b.None? then multiset(xs)[m.a.value] else 0 {
        if m.code == k && m.a.Some? && m.b.None? {
          assert m == f(m.a.value);
          MapCount(xs, f, m.a.value);
        } else {
          MapMissing(xs, f, m);
        }
      }
    }
    assert forall x :: x in xs ==> Merged(k, Some(x), None) in r by {
      forall x | x in xs ensures Merged(k, Some(x), None) in r {
        var i :| 0 <= i < |xs| && xs[i] == x;
        assert r[i] == Merged(k, Some(x), None);
      }
    }
    r
  }

  function RightOnly(k: string, ys: Table): (r: seq<Merged>)
    ensures |r| == |ys|
    ensures forall m :: m in r <==> exists y :: y in ys && m == Merged(k, None, Some(y))
    ensures forall m :: multiset(r)[m] == if m.code == k && m.a.None? && m.b.Some? then multiset(ys)[m.b.value] else 0
  {
    var f := (y: Record) => Merged(k, None, Some(y));
    var r := Map(ys, f);
    assert forall m :: multiset(r)[m] == if m.code == k && m.a.None? && m.b.Some? then multiset(ys)[m.b.value] else 0 by {
      forall m ensures multiset(r)[m] == if m.code == k && m.a.None? && m.b.Some? then multiset(ys)[m.b.value] else 0 {
        if m.code == k && m.a.None? && m.b.Some? {
          assert m == f(m.b.value);
          MapCount(ys, f, m.b.value);
        } else {
          MapMissing(ys, f, m);
        }
      }
    }
    assert forall y :: y in ys ==> Merged(k, None, Some(y)) in r by {
      forall y | y in ys ensures Merged(k, None, Some(y)) in r {
        var i :| 0 <= i < |ys| && ys[i] == y;
        assert r[i] == Merged(k, None, Some(y));
      }
    }
    r
  }

  /** One A row paired with every B row. */
  function PairRow(k: string, x: Record, ys: Table): (r: seq<Merged>)
    ensures |r| == |ys|
    ensures forall m :: m in r <==> exists y :: y in ys && m == Merged(k, Some(x), Some(y))
    ensures forall m :: multiset(r)[m] == if m.code == k && m.a == Some(x) && m.b.Some? then multiset(ys)[m.b.value] else 0
  {
    var f := (y: Record) => Merged(k, Some(x), Some(y));
    var r := Map(ys, f);
    assert forall m :: multiset(r)[m] == if m.code == k && m.a == Some(x) && m.b.Some? then multiset(ys)[m.b.value] else 0 by {
      forall m ensures multiset(r)[m] == if m.code == k && m.a == Some(x) && m.b.Some? then multiset(ys)[m.b.value] else 0 {
        if m.code == k && m.a == Some(x) && m.b.Some? {
          assert m == f(m.b.value);
          MapCount(ys, f, m.b.value);
        } else {
          MapMissing(ys, f, m);
        }
      }
    }
    assert forall y :: y in ys ==> Merged(k, Some(x), Some(y)) in r by {
      forall y | y in ys ensures Merged(k, Some(x), Some(y)) in r {
        var j :| 0 <= j < |ys| && ys[j] == y;
        assert r[j] == Merged(k, Some(x), Some(y));
      }
    }
    r
  }

  /** Every A row paired with every B row, A-major. */
  function Cross(k: string, xs: Table, ys: Table): (r: seq<Merged>)
    ensures |r| == |xs| * |ys|
    ensures forall m :: m in r <==> exists x, y :: x in xs && y in ys && m == Merged(k, Some(x), Some(y))
    ensures forall m :: multiset(r)[m] == CrossCount(k, xs, ys, m)
    decreases |xs|
  {
    if |xs| == 0 then []
    else
      var row := PairRow(k, xs[0], ys);
      var rest := Cross(k, xs[1..], ys);
      assert |xs| * |ys| == |ys| + (|xs| - 1) * |ys|;
      assert forall x :: x in xs <==> x == xs[0] || x in xs[1..];
      CrossCountStep(k, xs, ys, row, rest);
      row + rest
  }

  /** How often `m` occurs among the pairs of `xs` and `ys` under key `k`. */
  function CrossCount(k: string, xs: Table, ys: Table, m: Merged): nat {
    if m.code == k && m.a.Some? && m.b.Some? then multiset(xs)[m.a.value] * multiset(ys)[m.b.value] else 0
  }

  lemma CrossCountStep(k: string, xs: Table, ys: Table, row: seq<Merged>, rest: seq<Merged>)
    requires |xs| > 0
    requires forall m :: multiset(row)[m] == if m.code == k && m.a == Some(xs[0]) && m.b.Some? then multiset(ys)[m.b.value] else 0
    requires forall m :: multiset(rest)[m] == CrossCount(k, xs[1..], ys, m)
    ensures forall m :: multiset(row + rest)[m] == CrossCount(k, xs, ys, m)
  {
    forall m ensures multiset(row + rest)[m] == CrossCount(k, xs, ys, m) {
      assert multiset(row + rest)[m] == multiset(row)[m] + multiset(rest)[m];
      CrossCountAt(k, xs, ys, m);
    }
  }

  /** Peeling the first A row off `xs` splits the pair count of `m`. */
  lemma CrossCountAt(k: string, xs: Table, ys: Table, m: Merged)
    requires |xs| > 0
    ensures CrossCount(k, xs, ys, m) ==
      (if m.code == k && m.a == Some(xs[0]) && m.b.Some? then multiset(ys)[m.b.value] else 0)
      + CrossCount(k, xs[1..], ys, m)
  {
    assert xs == [xs[0]] + xs[1..];
    if m.code == k && m.a.Some? && m.b.Some? {
      var c := if m.a.value == xs[0] then 1 else 0;
      var n := multiset(ys)[m.b.value];
      var t := multiset(xs[1..])[m.a.value];
      assert multiset(xs)[m.a.value] == c + t;
      assert (c + t) * n == c * n + t * n;
    }
  }

  /** Rows one key contributes: the product when both sides hold it, else that side's count. */
  function GroupSize(na: nat, nb: nat): nat {
    if na > 0 && nb > 0 then na * nb else na + nb
  }

  /** The merged rows of key `k`. */
  function Group(a: Table, b: Table, k: string): seq<Merged> {
    var xs, ys := WithCode(a, k), WithCode(b, k);
    if |ys| == 0 then LeftOnly(k, xs)
    else if |xs| == 0 then RightOnly(k, ys)
    else Cross(k, xs, ys)
  }

  /** The join keys: every code of either table once, in lexicographic order. */
  function JoinKeys(a: Table, b: Table): (r: seq<string>)
    ensures StrictlySorted(r)
    ensures forall k :: k in r <==> k in Codes(a) || k in Codes(b)
  {
    SortedDistinct(Codes(a) + Codes(b))
  }

  function JoinOver(a: Table, b: Table, keys: seq<string>): seq<Merged>
    decreases |keys|
  {
    if |keys| == 0 then [] else Group(a, b, keys[0]) + JoinOver(a, b, keys[1..])
  }

  /** The merged row count promised for the keys `keys`. */
  function SizeOver(a: Table, b: Table, keys: seq<string>): nat
    decreases |keys|
  {
    if |keys| == 0 then 0
    else GroupSize(CodeCount(a, keys[0]), CodeCount(b, keys[0])) + SizeOver(a, b, keys[1..])
  }

  /** How often the merge must produce `m`: the product of the two rows' multiplicities for a
      matched pair, a lone row's multiplicity when the other table lacks its code, and nothing for
      a row that does not carry the merged code. */
  function PairCount(a: Table, b: Table, m: Merged): nat {
    if m.a.Some? && m.b.Some? then
      if m.a.value.code == m.code && m.b.value.code == m.code then multiset(a)[m.a.value] * multiset(b)[m.b.value] else 0
    else if m.a.Some? then
      if m.a.value.code == m.code && !HasCode(b, m.code) then multiset(a)[m.a.value] else 0
    else if m.b.Some? then
      if m.b.value.code == m.code && !HasCode(a, m.code) then multiset(b)[m.b.value] else 0
    else 0
  }

  lemma GroupCount(a: Table, b: Table, k: string, m: Merged)
    ensures multiset(Group(a, b, k))[m] == if m.code == k then PairCount(a, b, m) else 0
  {
    var xs, ys := WithCode(a, k), WithCode(b, k);
    WithCodeEmpty(a, k);
    WithCodeEmpty(b, k);
    if |ys| == 0 {
      assert Group(a, b, k) == LeftOnly(k, xs);
      LeftOnlyCount(a, b, k, m);
    } else if |xs| == 0 {
      assert Group(a, b, k) == RightOnly(k, ys);
      RightOnlyCount(a, b, k, m);
    } else {
      assert Group(a, b, k) == Cross(k, xs, ys);
      CrossPairCount(a, b, k, m);
    }
  }

  lemma CrossPairCount(a: Table, b: Table, k: string, m: Merged)
    requires HasCode(a, k) && HasCode(b, k)
    ensures multiset(Cross(k, WithCode(a, k), WithCode(b, k)))[m] == if m.code == k then PairCount(a, b, m) else 0
  {
    var xs, ys := WithCode(a, k), WithCode(b, k);
    assert multiset(Cross(k, xs, ys))[m] == CrossCount(k, xs, ys, m);
    match (m.a, m.b)
    case (Some(x), Some(y)) =>
      if m.code == k && x.code == k && y.code == k {
        assert multiset(xs)[x] == multiset(a)[x];
        assert multiset(ys)[y] == multiset(b)[y];
      } else if m.code == k && x.code != k {
        assert multiset(xs)[x] == 0;
      } else if m.code == k {
        assert multiset(ys)[y] == 0;
      }
    case (Some(x), None) =>
    case (None, Some(y)) =>
    case (None, None) =>
  }

  lemma LeftOnlyCount(a: Table, b: Table, k: string, m: Merged)
    requires !HasCode(b, k)
    ensures multiset(LeftOnly(k, WithCode(a, k)))[m] == if m.code == k then PairCount(a, b, m) else 0
  {
    var xs := WithCode(a, k);
    match (m.a, m.b)
    case (Some(x), None) =>
      assert multiset(LeftOnly(k, xs))[m] == if m.code == k then multiset(xs)[x] else 0;
    case (Some(x), Some(y)) =>
      assert multiset(LeftOnly(k, xs))[m] == 0;
      if y.code == k { AbsentCode(b, k, y); }
    case (None, Some(y)) =>
      assert multiset(LeftOnly(k, xs))[m] == 0;
      if y.code == k { AbsentCode(b, k, y); }
    case (None, None) =>
      assert multiset(LeftOnly(k, xs))[m] == 0;
  }

  lemma RightOnlyCount(a: Table, b: Table, k: string, m: Merged)
    requires !HasCode(a, k)
    ensures multiset(RightOnly(k, WithCode(b, k)))[m] == if m.code == k then PairCount(a, b, m) else 0
  {
    var ys := WithCode(b, k);
    match (m.a, m.b)
    case (None, Some(y)) =>
      assert multiset(RightOnly(k, ys))[m] == if m.code == k then multiset(ys)[y] else 0;
    case (Some(x), Some(y)) =>
      assert multiset(RightOnly(k, ys))[m] == 0;
      if x.code == k { AbsentCode(a, k, x); }
    case (Some(x), None) =>
      assert multiset(RightOnly(k, ys))[m] == 0;
      if x.code == k { AbsentCode(a, k, x); }
    case (None, None) =>
      assert multiset(RightOnly(k, ys))[m] == 0;
  }

  /** A row carrying a code the table lacks does not occur in it. */
  lemma AbsentCode(t: Table, k: string, x: Record)
    requires !HasCode(t, k) && x.code == k
    ensures multiset(t)[x] == 0
  {
  }

  lemma {:induction false} JoinOverCount(a: Table, b: Table, keys: seq<string>, m: Merged)
    requires StrictlySorted(keys)
    ensures multiset(JoinOver(a, b, keys))[m] == if m.code in keys then PairCount(a, b, m) else 0
    decreases |keys|
  {
    if |keys| > 0 {
      StrictlySortedTail(keys);
      GroupCount(a, b, keys[0], m);
      JoinOverCount(a, b, keys[1..], m);
      assert multiset(JoinOver(a, b, keys))[m] == multiset(Group(a, b, keys[0]))[m] + multiset(JoinOver(a, b, keys[1..]))[m];
    }
  }

  /** `pd.merge(a, b, on="NOTA", how="outer")`. */
  function OuterJoin(a: Table, b: Table): (r: seq<Merged>)
    ensures |r| == SizeOver(a, b, JoinKeys(a, b))
    ensures forall m :: m in r ==> WellPaired(a, b, m)
    ensures forall m :: multiset(r)[m] == PairCount(a, b, m)
  {
    var keys := JoinKeys(a, b);
    JoinOverSize(a, b, keys);
    JoinOverWellPaired(a, b, keys);
    JoinOverCounts(a, b, keys);
    JoinOver(a, b, keys)
  }

  lemma JoinOverCounts(a: Table, b: Table, keys: seq<string>)
    requires StrictlySorted(keys)
    requires forall k :: k in keys <==> k in Codes(a) || k in Codes(b)
    ensures forall m :: multiset(JoinOver(a, b, keys))[m] == PairCount(a, b, m)
  {
    forall m ensures multiset(JoinOver(a, b, keys))[m] == PairCount(a, b, m) {
      JoinOverCount(a, b, keys, m);
      PairCountNeedsKey(a, b, keys, m);
    }
  }

  /** Only a merged row whose code some table holds can be owed a positive count. */
  lemma PairCountNeedsKey(a: Table, b: Table, keys: seq<string>, m: Merged)
    requires forall k :: k in keys <==> k in Codes(a) || k in Codes(b)
    ensures m.code !in keys ==> PairCount(a, b, m) == 0
  {
    if m.a.Some? && m.a.value in a { CodeIn(a, m.a.value); }
    if m.b.Some? && m.b.value in b { CodeIn(b, m.b.value); }
  }

  lemma CodeIn(t: Table, x: Record)
    requires x in t
    ensures x.code in Codes(t)
  {
    var i :| 0 <= i < |t| && t[i] == x;
    assert Codes(t)[i] == x.code;
  }

  lemma OuterJoinPairCount(a: Table, b: Table, x: Record, y: Record)
    requires x.code == y.code
    ensures multiset(OuterJoin(a, b))[Merged(x.code, Some(x), Some(y))] == multiset(a)[x] * multiset(b)[y]
  {
    assert multiset(OuterJoin(a, b))[Merged(x.code, Some(x), Some(y))] == PairCount(a, b, Merged(x.code, Some(x), Some(y)));
  }

  lemma OuterJoinCountAt(a: Table, b: Table, m: Merged)
    ensures m.a.Some? && m.b.None? && m.a.value.code == m.code && !HasCode(b, m.code) ==>
      multiset(OuterJoin(a, b))[m] == multiset(a)[m.a.value]
    ensures m.a.None? && m.b.Some? && m.b.value.code == m.code && !HasCode(a, m.code) ==>
      multiset(OuterJoin(a, b))[m] == multiset(b)[m.b.value]
  {
    assert multiset(OuterJoin(a, b))[m] == PairCount(a, b, m);
  }

  /** A matched pair occurs as often as the product of its rows' multiplicities. */
  lemma OuterJoinPairMultiplicity(a: Table, b: Table)
    ensures forall x: Record, y: Record :: x.code == y.code ==>
      multiset(OuterJoin(a, b))[Merged(x.code, Some(x), Some(y))] == multiset(a)[x] * multiset(b)[y]
  {
    forall x: Record, y: Record | x.code == y.code
      ensures multiset(OuterJoin(a, b))[Merged(x.code, Some(x), Some(y))] == multiset(a)[x] * multiset(b)[y]
    {
      OuterJoinPairCount(a, b, x, y);
    }
  }

  /** A row whose code the other table lacks occurs as often as in its own table, and a merged
      row that occurs at all is well paired. */
  lemma OuterJoinLoneMultiplicity(a: Table, b: Table)
    ensures forall x: Record :: !HasCode(b, x.code) ==> multiset(OuterJoin(a, b))[Merged(x.code, Some(x), None)] == multiset(a)[x]
    ensures forall y: Record :: !HasCode(a, y.code) ==> multiset(OuterJoin(a, b))[Merged(y.code, None, Some(y))] == multiset(b)[y]
    ensures forall m :: multiset(OuterJoin(a, b))[m] > 0 ==> WellPaired(a, b, m)
  {
    forall x: Record | !HasCode(b, x.code) ensures multiset(OuterJoin(a, b))[Merged(x.code, Some(x), None)] == multiset(a)[x] {
      OuterJoinCountAt(a, b, Merged(x.code, Some(x), None));
    }
    forall y: Record | !HasCode(a, y.code) ensures multiset(OuterJoin(a, b))[Merged(y.code, None, Some(y))] == multiset(b)[y] {
      OuterJoinCountAt(a, b, Merged(y.code, None, Some(y)));
    }
    forall m | multiset(OuterJoin(a, b))[m] > 0 ensures WellPaired(a, b, m) {
      assert m in OuterJoin(a, b);
    }
  }

  lemma GroupSizeIsProduct(a: Table, b: Table, k: string)
    ensures |Group(a, b, k)| == GroupSize(CodeCount(a, k), CodeCount(b, k))
  {
    WithCodeCount(a, k);
    WithCodeCount(b, k);
  }

  lemma {:induction false} JoinOverSize(a: Table, b: Table, keys: seq<string>)
    ensures |JoinOver(a, b, keys)| == SizeOver(a, b, keys)
    decreases |keys|
  {
    if |keys| > 0 {
      GroupSizeIsProduct(a, b, keys[0]);
      JoinOverSize(a, b, keys[1..]);
    }
  }

  predicate HasCode(t: Table, k: string) {
    exists x :: x in t && x.code == k
  }

  /** The invariant of every merged row: at least one side is present; a present side is a row
      of its table carrying the merged code; a side is absent only when its table has no row
      with that code. */
  predicate WellPaired(a: Table, b: Table, m: Merged) {
    && (m.a.Some? || m.b.Some?)
    && (m.a.Some? ==> m.a.value in a && m.a.value.code == m.code)
    && (m.b.Some? ==> m.b.value in b && m.b.value.code == m.code)
    && (m.a.None? ==> !HasCode(a, m.code))
    && (m.b.None? ==> !HasCode(b, m.code))
  }

  lemma WithCodeEmpty(t: Table, k: string)
    ensures |WithCode(t, k)| == 0 <==> !HasCode(t, k)
  {
    if HasCode(t, k) {
      var x :| x in t && x.code == k;
      assert x in WithCode(t, k);
    }
    if |WithCode(t, k)| > 0 {
      assert WithCode(t, k)[0] in WithCode(t, k);
    }
  }

  lemma GroupWellPaired(a: Table, b: Table, k: string)
    ensures forall m :: m in Group(a, b, k) ==> WellPaired(a, b, m) && m.code == k
  {
    WithCodeEmpty(a, k);
    WithCodeEmpty(b, k);
  }

  lemma {:induction false} JoinOverWellPaired(a: Table, b: Table, keys: seq<string>)
    ensures forall m :: m in JoinOver(a, b, keys) ==> WellPaired(a, b, m) && m.code in keys
    decreases |keys|
  {
    if |keys| > 0 {
      GroupWellPaired(a, b, keys[0]);
      JoinOverWellPaired(a, b, keys[1..]);
    }
  }

  /** Every merged row satisfies the pairing invariant. */
  lemma OuterJoinWellPaired(a: Table, b: Table)
    ensures forall m :: m in OuterJoin(a, b) ==> WellPaired(a, b, m)
  {
    JoinOverWellPaired(a, b, JoinKeys(a, b));
  }

  lemma {:induction false} JoinOverContains(a: Table, b: Table, keys: seq<string>, k: string)
    requires k in keys
    ensures forall m :: m in Group(a, b, k) ==> m in JoinOver(a, b, keys)
    decreases |keys|
  {
    if keys[0] != k {
      JoinOverContains(a, b, keys[1..], k);
    }
  }

  lemma CodeInJoinKeys(a: Table, b: Table, x: Record)
    requires x in a || x in b
    ensures x.code in JoinKeys(a, b)
  {
    if x in a {
      var i :| 0 <= i < |a| && a[i] == x;
      assert Codes(a)[i] == x.code;
    } else {
      var i :| 0 <= i < |b| && b[i] == x;
      assert Codes(b)[i] == x.code;
    }
  }

  lemma GroupPairsMatches(a: Table, b: Table, x: Record, y: Record)
    requires x in a && y in b && x.code == y.code
    ensures Merged(x.code, Some(x), Some(y)) in Group(a, b, x.code)
  {
    var k := x.code;
    var xs, ys := WithCode(a, k), WithCode(b, k);
    assert x in xs && y in ys;
    assert Merged(k, Some(x), Some(y)) in Cross(k, xs, ys);
  }

  lemma GroupKeepsLeftOnly(a: Table, b: Table, x: Record)
    requires x in a && !HasCode(b, x.code)
    ensures Merged(x.code, Some(x), None) in Group(a, b, x.code)
  {
    var k := x.code;
    assert x in WithCode(a, k);
    WithCodeEmpty(b, k);
    assert Merged(k, Some(x), None) in LeftOnly(k, WithCode(a, k));
  }

  lemma GroupKeepsRightOnly(a: Table, b: Table, y: Record)
    requires y in b && !HasCode(a, y.code)
    ensures Merged(y.code, None, Some(y)) in Group(a, b, y.code)
  {
    var k := y.code;
    assert y in WithCode(b, k);
    WithCodeEmpty(a, k);
    assert Merged(k, None, Some(y)) in RightOnly(k, WithCode(b, k));
  }

  /** Nothing is lost: each A row appears paired with each B row of the same code. */
  lemma OuterJoinPairsMatches(a: Table, b: Table, x: Record, y: Record)
    requires x in a && y in b && x.code == y.code
    ensures Merged(x.code, Some(x), Some(y)) in OuterJoin(a, b)
  {
    CodeInJoinKeys(a, b, x);
    JoinOverContains(a, b, JoinKeys(a, b), x.code);
    GroupPairsMatches(a, b, x, y);
  }

  /** An A row whose code B lacks appears paired with nothing. */
  lemma OuterJoinKeepsLeftOnly(a: Table, b: Table, x: Record)
    requires x in a && !HasCode(b, x.code)
    ensures Merged(x.code, Some(x), None) in OuterJoin(a, b)
  {
    CodeInJoinKeys(a, b, x);
    JoinOverContains(a, b, JoinKeys(a, b), x.code);
    GroupKeepsLeftOnly(a, b, x);
  }

  /** A B row whose code A lacks appears paired with nothing. */
  lemma OuterJoinKeepsRightOnly(a: Table, b: Table, y: Record)
    requires y in b && !HasCode(a, y.code)
    ensures Merged(y.code, None, Some(y)) in OuterJoin(a, b)
  {
    CodeInJoinKeys(a, b, y);
    JoinOverContains(a, b, JoinKeys(a, b), y.code);
    GroupKeepsRightOnly(a, b, y);
  }
}
