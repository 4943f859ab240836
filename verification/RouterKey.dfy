/**
  The key under which a set of extension names is routed: the names sorted, without repetitions, each
  between two separators.
 */
module RouterKey {
  import opened Sorting

  const SEP := '|'

  /** Go's order on strings: the first difference decides, a prefix comes first. */
  predicate LexLe(a: string, b: string) {
    a == [] || (b != [] && (a[0] < b[0] || (a[0] == b[0] && LexLe(a[1..], b[1..]))))
  }

  lemma LexTotal(a: string, b: string)
    ensures LexLe(a, b) || LexLe(b, a)
  {}

  lemma LexAntisymmetric(a: string, b: string)
    requires LexLe(a, b) && LexLe(b, a)
    ensures a == b
  {
    if a != [] {
      LexAntisymmetric(a[1..], b[1..]);
      assert a == [a[0]] + a[1..] && b == [b[0]] + b[1..];
    }
  }

  lemma LexTransitive(a: string, b: string, c: string)
    requires LexLe(a, b) && LexLe(b, c)
    ensures LexLe(a, c)
  {}

  lemma LexIsTotalOrder()
    ensures TotalOrder(LexLe)
  {
    forall x, y ensures LexLe(x, y) || LexLe(y, x) { LexTotal(x, y); }
    forall x, y | LexLe(x, y) && LexLe(y, x) ensures x == y { LexAntisymmetric(x, y); }
    forall x, y, z | LexLe(x, y) && LexLe(y, z) ensures LexLe(x, z) { LexTransitive(x, y, z); }
  }

  function Names(xs: seq<string>): set<string> { set x | x in xs }

  function Join(xs: seq<string>): string {
    if xs == [] then "" else if |xs| == 1 then xs[0] else xs[0] + [SEP] + Join(xs[1..])
  }

  lemma NamesOfSum(xs: seq<string>, ys: seq<string>)
    ensures Names(xs + ys) == Names(xs) + Names(ys)
  {
    forall x ensures x in xs + ys <==> x in xs || x in ys {}
  }

  function Unique(xs: seq<string>): (r: seq<string>)
    ensures Distinct(r) && Names(r) == Names(xs)
  {
    if xs == [] then []
    else
      assert xs == [xs[0]] + xs[1..];
      var r := Unique(xs[1..]);
      NamesOfSum([xs[0]], xs[1..]);
      NamesOfSum([xs[0]], r);
      assert xs[0] in r <==> xs[0] in Names(r);
      if xs[0] in r then r else [xs[0]] + r
  }

  /** The names of the list, once each, in order. */
  function Canonical(xs: seq<string>): (r: seq<string>)
    ensures Distinct(r) && Names(r) == Names(xs)
  {
    var r := Sort(LexLe, Unique(xs));
    SortKeepsDistinct(LexLe, Unique(xs));
    assert forall x :: x in r <==> x in Names(Unique(xs));
    r
  }

  function Key(extensions: seq<string>): string { [SEP] + Join(Canonical(extensions)) + [SEP] }

  lemma SameNames(xs: seq<string>, ys: seq<string>)
    ensures Names(xs) == Names(ys) <==> forall x :: x in xs <==> x in ys
  {
    forall x ensures (x in xs <==> x in Names(xs)) && (x in ys <==> x in Names(ys)) {}
  }

  lemma CanonicalIsDetermined(xs: seq<string>, ordered: seq<string>)
    requires Ordered(LexLe, ordered) && Distinct(ordered) && Names(ordered) == Names(xs)
    ensures Canonical(xs) == ordered
  {
    LexIsTotalOrder();
    SortOrders(LexLe, Unique(xs));
    SameNames(Canonical(xs), ordered);
    OrderedUnique(LexLe, Canonical(xs), ordered);
  }

  /** Neither the order of the names nor their repetitions matter. */
  lemma SameNamesSameKey(a: seq<string>, b: seq<string>)
    requires Names(a) == Names(b)
    ensures Key(a) == Key(b)
  {
    LexIsTotalOrder();
    SortOrders(LexLe, Unique(b));
    CanonicalIsDetermined(a, Canonical(b));
  }

  method NewRouterKey(extensions: seq<string>) returns (key: string)
    ensures key == Key(extensions)
  {
    var uniqueExtensions: set<string> := {};
    for i := 0 to |extensions|
      invariant uniqueExtensions == Names(extensions[..i])
    {
      assert extensions[..i + 1] == extensions[..i] + [extensions[i]];
      uniqueExtensions := uniqueExtensions + {extensions[i]};
    }
    assert extensions[..|extensions|] == extensions;
    var slice: seq<string> := [];
    var left := uniqueExtensions;
    while left != {}
      invariant left <= uniqueExtensions && Names(slice) == uniqueExtensions - left && Distinct(slice)
      decreases left
    {
      var addon :| addon in left;
      assert addon !in Names(slice);
      NamesOfSum(slice, [addon]);
      slice := slice + [addon];
      left := left - {addon};
    }
    var sorted := Sort(LexLe, slice);
    LexIsTotalOrder();
    SortOrders(LexLe, slice);
    SortKeepsDistinct(LexLe, slice);
    SameNames(sorted, slice);
    CanonicalIsDetermined(extensions, sorted);
    return [SEP] + Join(sorted) + [SEP];
  }

  // ---- When two keys are equal ------------------------------------------------------------------

  predicate SeparatorFree(xs: seq<string>) {
    forall x :: x in xs ==> SEP !in x
  }

  lemma SameHead(a: string, b: string, s: string, t: string)
    requires SEP !in a && SEP !in b
    requires a + [SEP] + s == b + [SEP] + t
    ensures a == b && s == t
  {
    var whole := a + [SEP] + s;
    assert whole[|a|] == SEP && whole[|b|] == SEP;
    assert forall i :: 0 <= i < |a| ==> whole[i] == a[i];
    assert forall i :: 0 <= i < |b| ==> whole[i] == b[i];
    assert |a| == |b|;
    assert a == whole[..|a|] && b == whole[..|b|];
    assert s == whole[|a| + 1..] && t == whole[|b| + 1..];
  }

  lemma JoinHasSeparator(xs: seq<string>)
    requires |xs| >= 2
    ensures SEP in Join(xs)
  {
    assert Join(xs)[|xs[0]|] == SEP;
  }

  lemma {:induction false} JoinInjective(xs: seq<string>, ys: seq<string>)
    requires xs != [] && ys != [] && SeparatorFree(xs) && SeparatorFree(ys)
    requires Join(xs) == Join(ys)
    ensures xs == ys
  {
    assert xs[0] in xs && ys[0] in ys;
    if |xs| == 1 || |ys| == 1 {
      if |xs| >= 2 { JoinHasSeparator(xs); }
      if |ys| >= 2 { JoinHasSeparator(ys); }
    } else {
      SameHead(xs[0], ys[0], Join(xs[1..]), Join(ys[1..]));
      JoinInjective(xs[1..], ys[1..]);
      assert xs == [xs[0]] + xs[1..] && ys == [ys[0]] + ys[1..];
    }
  }

  /** No name at all, or only the empty name. */
  predicate Blank(names: set<string>) { names == {} || names == {""} }

  lemma BlankIsEmptyJoin(xs: seq<string>)
    requires Distinct(xs) && SeparatorFree(xs)
    ensures Blank(Names(xs)) <==> Join(xs) == ""
  {
    if |xs| == 1 {
      assert xs == [xs[0]];
      assert Names(xs) == {xs[0]};
    } else if |xs| >= 2 {
      JoinHasSeparator(xs);
      assert xs[0] in Names(xs) && xs[1] in Names(xs);
    }
  }

  /**
    For names without the separator, two lists have the same key exactly when they have the same names;
    the one collision is between no name at all and the empty name alone.
   */
  lemma SameKeyExactly(a: seq<string>, b: seq<string>)
    requires SeparatorFree(a) && SeparatorFree(b)
    ensures Key(a) == Key(b) <==> Names(a) == Names(b) || (Blank(Names(a)) && Blank(Names(b)))
  {
    var x, y := Canonical(a), Canonical(b);
    SameNames(x, a);
    SameNames(y, b);
    BlankIsEmptyJoin(x);
    BlankIsEmptyJoin(y);
    assert Join(x) == Key(a)[1..|Key(a)| - 1] && Join(y) == Key(b)[1..|Key(b)| - 1];
    if Key(a) == Key(b) && x != [] && y != [] {
      JoinInjective(x, y);
    }
    if Names(a) == Names(b) {
      SameNamesSameKey(a, b);
    }
  }

  predicate Proper(name: string) { name != "" && SEP !in name }

  /** For proper names the key is canonical. */
  lemma KeyIsCanonical(a: seq<string>, b: seq<string>)
    requires forall x :: x in a || x in b ==> Proper(x)
    ensures Key(a) == Key(b) <==> Names(a) == Names(b)
  {
    SameKeyExactly(a, b);
    assert "" !in Names(a) && "" !in Names(b);
  }

  lemma JoinOfTwo(a: string, b: string)
    ensures Join([a, b]) == a + [SEP] + b && Join([a]) == a
  {
    assert [a, b][1..] == [b];
  }

  /** The names stand in order between separators: the key of two names, given the other way round and repeated. */
  lemma KeyInOrder(a: string, b: string)
    requires a != [] && b != [] && a[0] < b[0]
    ensures Key([b, a, b]) == [SEP] + a + [SEP] + b + [SEP]
  {
    assert [b, a, b][0] == b && [b, a, b][1] == a;
    assert [a, b][0] == a && [a, b][1] == b;
    SameNames([a, b], [b, a, b]);
    assert LexLe(a, b);
    CanonicalIsDetermined([b, a, b], [a, b]);
    JoinOfTwo(a, b);
    assert [SEP] + (a + [SEP] + b) + [SEP] == [SEP] + a + [SEP] + b + [SEP];
  }

  lemma KeyOfOne(a: string)
    ensures Key([a]) == [SEP] + a + [SEP] && Key([]) == [SEP, SEP]
  {
    CanonicalIsDetermined([a], [a]);
    CanonicalIsDetermined([], []);
    JoinOfTwo(a, a);
  }

  /** Names that hold the separator do collide: two names and the one that joins them have the same key. */
  lemma SeparatorCollides(a: string, b: string)
    requires LexLe(a, b) && a != b
    ensures Key([a + [SEP] + b]) == Key([a, b])
    ensures a in Names([a, b]) && a !in Names([a + [SEP] + b])
  {
    var ab := a + [SEP] + b;
    CanonicalIsDetermined([ab], [ab]);
    CanonicalIsDetermined([a, b], [a, b]);
    JoinOfTwo(a, b);
    JoinOfTwo(ab, b);
    assert [a, b][0] == a;
  }
}
