/**
  Routing a provider's node urls by the extensions and addons they serve, and the check at start-up that
  whatever a consumer may ask of a url can be routed.
 */
module ChainRouter {
  import opened Common
  import opened Sorting
  import opened RouterKey

  /** The addons and the extensions the spec knows. */
  datatype Parser = Parser(allowedAddons: set<string>, allowedExtensions: set<string>)

  datatype NodeUrl = NodeUrl(url: string, addons: seq<string>)

  datatype Requirement = Requirement(extensions: string, addon: string)

  // ---- Separating addons from extensions -----------------------------------------------------------

  /** The names that belong to `keep`, each where it first occurs. */
  function Kept(xs: seq<string>, keep: set<string>): (r: seq<string>)
    ensures Distinct(r) && Names(r) == Names(xs) * keep
  {
    if xs == [] then []
    else
      var n := |xs| - 1;
      var r := Kept(xs[..n], keep);
      assert xs == xs[..n] + [xs[n]];
      NamesOfSum(xs[..n], [xs[n]]);
      NamesOfSum(r, [xs[n]]);
      assert xs[n] in r <==> xs[n] in Names(r);
      if xs[n] in keep && xs[n] !in r then r + [xs[n]] else r
  }

  lemma KeptNames(xs: seq<string>, keep: set<string>)
    ensures forall name :: name in Kept(xs, keep) <==> name in xs && name in keep
  {
    forall name ensures name in Kept(xs, keep) <==> name in xs && name in keep {
      assert name in Kept(xs, keep) <==> name in Names(Kept(xs, keep));
      assert name in xs <==> name in Names(xs);
    }
  }

  function PureExtensions(p: Parser): set<string> { p.allowedExtensions - p.allowedAddons - {""} }

  predicate Known(p: Parser, name: string) { name in p.allowedAddons || name == "" || name in p.allowedExtensions }

  predicate AllNamesKnown(p: Parser, names: set<string>) {
    forall name :: name in names ==> Known(p, name)
  }

  /** What is kept, and when all names are known, name by name. */
  lemma SeparatedNames(p: Parser, supported: seq<string>)
    ensures AllNamesKnown(p, Names(supported)) <==>
      forall name :: name in supported ==> name == "" || name in p.allowedAddons || name in p.allowedExtensions
    ensures forall name :: name in Kept(supported, p.allowedAddons) <==> name in supported && name in p.allowedAddons
    ensures forall name :: name in Kept(supported, PureExtensions(p)) <==>
      name in supported && name != "" && name in p.allowedExtensions && name !in p.allowedAddons
  {
    KeptNames(supported, p.allowedAddons);
    KeptNames(supported, PureExtensions(p));
    assert forall name :: name in supported <==> name in Names(supported);
  }

  method SeparateAddonsExtensions(p: Parser, supported: seq<string>)
    returns (addons: seq<string>, extensions: seq<string>, ok: bool)
    ensures addons == Kept(supported, p.allowedAddons)
    ensures extensions == Kept(supported, PureExtensions(p))
    ensures ok <==>
      forall name :: name in supported ==> name == "" || name in p.allowedAddons || name in p.allowedExtensions
    ensures forall name :: name in addons <==> name in supported && name in p.allowedAddons
    ensures forall name :: name in extensions <==>
      name in supported && name != "" && name in p.allowedExtensions && name !in p.allowedAddons
  {
    var checked: set<string> := {};
    addons, extensions, ok := [], [], true;
    for n := 0 to |supported|
      invariant checked == Names(supported[..n])
      invariant addons == Kept(supported[..n], p.allowedAddons)
      invariant extensions == Kept(supported[..n], PureExtensions(p))
      invariant ok <==> AllNamesKnown(p, checked)
    {
      var name := supported[n];
      assert supported[..n + 1][..n] == supported[..n];
      assert supported[..n + 1] == supported[..n] + [name];
      NamesOfSum(supported[..n], [name]);
      assert name in addons <==> name in Names(addons);
      assert name in extensions <==> name in Names(extensions);
      if name in checked {
        continue;
      }
      checked := checked + {name};
      if name in p.allowedAddons {
        addons := addons + [name];
      } else {
        if name == "" {
          continue;
        }
        if name in p.allowedExtensions {
          extensions := extensions + [name];
          continue;
        }
        ok := false;
      }
    }
    assert supported[..|supported|] == supported;
    assert AllNamesKnown(p, Names(supported)) <==> ok;
    SeparatedNames(p, supported);
  }

  // ---- Keys of sets ----------------------------------------------------------------------------

  ghost function Listing(names: set<string>): (r: seq<string>)
    ensures Names(r) == names
  {
    if names == {} then []
    else
      var x :| x in names;
      var r := Listing(names - {x});
      NamesOfSum([x], r);
      [x] + r
  }

  ghost function KeyOf(names: set<string>): string { Key(Listing(names)) }

  lemma KeyOfNames(xs: seq<string>)
    ensures Key(xs) == KeyOf(Names(xs))
  {
    SameNamesSameKey(xs, Listing(Names(xs)));
  }

  ghost predicate ProperSet(names: set<string>) {
    forall x :: x in names ==> Proper(x)
  }

  lemma KeyOfInjective(a: set<string>, b: set<string>)
    requires ProperSet(a) && ProperSet(b) && KeyOf(a) == KeyOf(b)
    ensures a == b
  {
    forall x | x in Listing(a) || x in Listing(b) ensures Proper(x) {
      assert x in Names(Listing(a)) || x in Names(Listing(b));
    }
    KeyIsCanonical(Listing(a), Listing(b));
  }

  // ---- The required subsets ----------------------------------------------------------------------

  ghost predicate Marked(required: set<Requirement>, names: set<string>, addon: string) {
    Requirement(KeyOf(names), addon) in required
  }

  ghost predicate Closed(required: set<Requirement>, names: set<string>, addon: string) {
    forall t :: t <= names ==> Marked(required, t, addon)
  }

  /** The requirement for some subset of the names, with this addon. */
  ghost predicate ForSubset(r: Requirement, names: set<string>, addon: string) {
    r.addon == addon && exists t :: t <= names && r.extensions == KeyOf(t)
  }

  ghost predicate AddsSubsets(after: set<Requirement>, before: set<Requirement>, names: set<string>, addon: string) {
    forall r :: r in after <==> r in before || ForSubset(r, names, addon)
  }

  /** Every set already marked has its subsets marked, except those whose enumeration is under way above this one. */
  ghost predicate ClosedBelow(required: set<Requirement>, names: set<string>, addon: string) {
    forall s :: ProperSet(s) && Marked(required, s, addon) && !(names < s) ==> Closed(required, s, addon)
  }

  ghost predicate AllClosed(required: set<Requirement>) {
    forall s, addon :: ProperSet(s) && Marked(required, s, addon) ==> Closed(required, s, addon)
  }

  lemma ClosedStays(before: set<Requirement>, after: set<Requirement>, names: set<string>, addon: string)
    requires before <= after && Closed(before, names, addon)
    ensures Closed(after, names, addon)
  {
    forall t | t <= names ensures Marked(after, t, addon) {
      assert Marked(before, t, addon);
    }
  }

  lemma SubsetsAreClosed(after: set<Requirement>, before: set<Requirement>, names: set<string>, s: set<string>,
                         addon: string)
    requires AddsSubsets(after, before, names, addon) && s <= names
    ensures Closed(after, s, addon)
  {
    forall t | t <= s ensures Marked(after, t, addon) {
      assert ForSubset(Requirement(KeyOf(t), addon), names, addon);
    }
  }

  /** Adding all subsets of a set of names leaves whatever was closed closed. */
  lemma AddingSubsetsKeepsClosed(after: set<Requirement>, before: set<Requirement>, names: set<string>, addon: string,
                                 s: set<string>, b: string)
    requires AddsSubsets(after, before, names, addon) && ProperSet(names) && ProperSet(s) && Marked(after, s, b)
    requires Marked(before, s, b) ==> Closed(before, s, b)
    ensures Closed(after, s, b)
  {
    if Marked(before, s, b) {
      ClosedStays(before, after, s, b);
    } else {
      var r := Requirement(KeyOf(s), b);
      var t :| t <= names && r.extensions == KeyOf(t);
      KeyOfInjective(s, t);
      SubsetsAreClosed(after, before, names, s, addon);
    }
  }

  /** The names without the one at `i`. */
  function Without(xs: seq<string>, i: nat): (r: seq<string>)
    requires i < |xs|
  {
    xs[..i] + xs[i + 1..]
  }

  lemma WithoutNames(xs: seq<string>, i: nat)
    requires i < |xs| && Distinct(xs)
    ensures Distinct(Without(xs, i)) && Names(Without(xs, i)) == Names(xs) - {xs[i]}
  {
    var r := Without(xs, i);
    forall x ensures x in r <==> x in xs && x != xs[i] {
      if x in xs && x != xs[i] {
        var j :| 0 <= j < |xs| && xs[j] == x;
        assert if j < i then r[j] == x else r[j - 1] == x;
      }
    }
  }

  ghost function Smaller(xs: seq<string>, i: nat): set<string>
    requires i < |xs|
  {
    Names(xs) - {xs[i]}
  }

  /** A proper subset misses some name. */
  lemma SubsetMissesOne(xs: seq<string>, t: set<string>) returns (i: nat)
    requires t < Names(xs)
    ensures i < |xs| && t <= Smaller(xs, i)
  {
    var x :| x in Names(xs) && x !in t;
    i :| i < |xs| && xs[i] == x;
  }

  /** The subsets reached after `n` of the recursive calls. */
  ghost predicate Reached(r: Requirement, xs: seq<string>, n: nat, addon: string)
    requires n <= |xs|
  {
    exists i :: 0 <= i < n && ForSubset(r, Smaller(xs, i), addon)
  }

  /** What is marked then: what was before, the set itself, and those subsets. */
  ghost predicate MarkedSoFar(r: Requirement, before: set<Requirement>, xs: seq<string>, n: nat, addon: string)
    requires n <= |xs|
  {
    r in before || r == Requirement(KeyOf(Names(xs)), addon) || Reached(r, xs, n, addon)
  }

  class Requirements {
    var marked: set<Requirement>

    constructor ()
      ensures marked == {}
    {
      marked := {};
    }

    /**
      Adds the requirement of every subset of the extensions, and nothing else, although it returns at once
      on a set that is marked and marks a set before its subsets.
     */
    method PopulateRequiredForAddon(addon: string, extensions: seq<string>)
      requires Distinct(extensions) && ProperSet(Names(extensions))
      requires ClosedBelow(marked, Names(extensions), addon)
      modifies this
      ensures AddsSubsets(marked, old(marked), Names(extensions), addon)
      decreases |extensions|
    {
      var requirement := Requirement(Key(extensions), addon);
      KeyOfNames(extensions);
      ghost var names := Names(extensions);
      if |extensions| == 0 {
        marked := marked + {requirement};
        OnlyTheEmptySubset(names, addon);
        return;
      }
      if requirement in marked {
        AlreadyHandled(marked, names, addon);
        return;
      }
      ghost var before := marked;
      marked := marked + {requirement};
      for i := 0 to |extensions|
        invariant forall r :: r in marked <==> MarkedSoFar(r, before, extensions, i, addon)
      {
        WithoutNames(extensions, i);
        SiblingsAreClosed(before, marked, extensions, i, addon);
        ghost var soFar := marked;
        PopulateRequiredForAddon(addon, Without(extensions, i));
        ReachOneMore(before, soFar, marked, extensions, i, addon);
      }
      AllSubsetsReached(before, marked, extensions, addon);
    }
  }

  lemma OnlyTheEmptySubset(names: set<string>, addon: string)
    requires names == {}
    ensures forall r :: ForSubset(r, names, addon) <==> r == Requirement(KeyOf({}), addon)
  {
    forall r ensures ForSubset(r, names, addon) <==> r == Requirement(KeyOf({}), addon) {
      if r == Requirement(KeyOf({}), addon) {
        assert {} <= names;
      }
    }
  }

  lemma AlreadyHandled(required: set<Requirement>, names: set<string>, addon: string)
    requires ProperSet(names) && Marked(required, names, addon) && ClosedBelow(required, names, addon)
    ensures AddsSubsets(required, required, names, addon)
  {
    assert Closed(required, names, addon);
    forall r | ForSubset(r, names, addon) ensures r in required {
      var t :| t <= names && r.extensions == KeyOf(t);
      assert Marked(required, t, addon);
    }
  }

  lemma ReachOneMore(before: set<Requirement>, soFar: set<Requirement>, after: set<Requirement>, xs: seq<string>,
                     n: nat, addon: string)
    requires n < |xs| && AddsSubsets(after, soFar, Smaller(xs, n), addon)
    requires forall r :: r in soFar <==> MarkedSoFar(r, before, xs, n, addon)
    ensures forall r :: r in after <==> MarkedSoFar(r, before, xs, n + 1, addon)
  {
    forall r
      ensures Reached(r, xs, n + 1, addon) <==> Reached(r, xs, n, addon) || ForSubset(r, Smaller(xs, n), addon)
    {}
    forall r ensures r in after <==> MarkedSoFar(r, before, xs, n + 1, addon) {
      assert r in soFar <==> MarkedSoFar(r, before, xs, n, addon);
    }
  }

  lemma SubsetOfSibling(r: Requirement, xs: seq<string>, n: nat, i: nat, u: set<string>, addon: string)
    requires i < n <= |xs| && u <= Smaller(xs, i) && r == Requirement(KeyOf(u), addon)
    ensures Reached(r, xs, n, addon)
  {
    assert ForSubset(r, Smaller(xs, i), addon);
  }

  lemma ReachedIsProper(xs: seq<string>, n: nat, addon: string, s: set<string>) returns (i: nat)
    requires n <= |xs| && ProperSet(Names(xs)) && ProperSet(s)
    requires Reached(Requirement(KeyOf(s), addon), xs, n, addon)
    ensures i < n && s <= Smaller(xs, i)
  {
    i :| 0 <= i < n && ForSubset(Requirement(KeyOf(s), addon), Smaller(xs, i), addon);
    var t :| t <= Smaller(xs, i) && KeyOf(s) == KeyOf(t);
    KeyOfInjective(s, t);
  }

  lemma ReachedIsClosed(before: set<Requirement>, soFar: set<Requirement>, xs: seq<string>, n: nat, addon: string,
                        s: set<string>)
    requires n <= |xs| && ProperSet(Names(xs)) && ProperSet(s)
    requires forall r :: r in soFar <==> MarkedSoFar(r, before, xs, n, addon)
    requires Reached(Requirement(KeyOf(s), addon), xs, n, addon)
    ensures Closed(soFar, s, addon)
  {
    var i := ReachedIsProper(xs, n, addon, s);
    forall u | u <= s ensures Marked(soFar, u, addon) {
      SubsetOfSibling(Requirement(KeyOf(u), addon), xs, n, i, u, addon);
      assert MarkedSoFar(Requirement(KeyOf(u), addon), before, xs, n, addon);
    }
  }

  /** What the earlier siblings marked is closed, so the next one may rely on it. */
  lemma SiblingsAreClosed(before: set<Requirement>, soFar: set<Requirement>, xs: seq<string>, n: nat, addon: string)
    requires n < |xs| && ProperSet(Names(xs)) && ClosedBelow(before, Names(xs), addon)
    requires forall r :: r in soFar <==> MarkedSoFar(r, before, xs, n, addon)
    ensures ClosedBelow(soFar, Smaller(xs, n), addon)
  {
    assert xs[n] in Names(xs);
    forall r | r in before ensures r in soFar {
      assert MarkedSoFar(r, before, xs, n, addon);
    }
    forall s | ProperSet(s) && Marked(soFar, s, addon) && !(Smaller(xs, n) < s) ensures Closed(soFar, s, addon) {
      var r := Requirement(KeyOf(s), addon);
      assert MarkedSoFar(r, before, xs, n, addon);
      if Reached(r, xs, n, addon) {
        ReachedIsClosed(before, soFar, xs, n, addon, s);
      } else {
        if r !in before {
          KeyOfInjective(s, Names(xs));
        }
        assert Marked(before, s, addon) && !(Names(xs) < s);
        ClosedStays(before, soFar, s, addon);
      }
    }
  }

  lemma SubsetOfSubset(r: Requirement, small: set<string>, large: set<string>, addon: string)
    requires ForSubset(r, small, addon) && small <= large
    ensures ForSubset(r, large, addon)
  {
    var t :| t <= small && r.extensions == KeyOf(t);
    assert t <= large;
  }

  lemma SubsetIsReached(r: Requirement, xs: seq<string>, t: set<string>, addon: string)
    requires t < Names(xs) && r == Requirement(KeyOf(t), addon)
    ensures Reached(r, xs, |xs|, addon)
  {
    var i := SubsetMissesOne(xs, t);
    assert ForSubset(r, Smaller(xs, i), addon);
  }

  lemma SubsetsAreReached(xs: seq<string>, addon: string, r: Requirement)
    ensures ForSubset(r, Names(xs), addon) <==>
      r == Requirement(KeyOf(Names(xs)), addon) || Reached(r, xs, |xs|, addon)
  {
    if Reached(r, xs, |xs|, addon) {
      var i :| 0 <= i < |xs| && ForSubset(r, Smaller(xs, i), addon);
      SubsetOfSubset(r, Smaller(xs, i), Names(xs), addon);
    } else if ForSubset(r, Names(xs), addon) {
      var t :| t <= Names(xs) && r.extensions == KeyOf(t);
      if t != Names(xs) {
        SubsetIsReached(r, xs, t, addon);
      }
    }
  }

  lemma AllSubsetsReached(before: set<Requirement>, after: set<Requirement>, xs: seq<string>, addon: string)
    requires forall r :: r in after <==> MarkedSoFar(r, before, xs, |xs|, addon)
    ensures AddsSubsets(after, before, Names(xs), addon)
  {
    forall r ensures r in after <==> r in before || ForSubset(r, Names(xs), addon) {
      SubsetsAreReached(xs, addon, r);
      assert r in after <==> MarkedSoFar(r, before, xs, |xs|, addon);
    }
  }

  // ---- Batches of node urls ------------------------------------------------------------------------

  /** Those of the first `n` urls whose services have this key, in order. */
  function WithKey(nodeUrls: seq<NodeUrl>, n: nat, key: string): (r: seq<NodeUrl>)
    requires n <= |nodeUrls|
    ensures forall u :: u in r ==> u in nodeUrls && Key(u.addons) == key
    ensures forall i :: 0 <= i < n && Key(nodeUrls[i].addons) == key ==> nodeUrls[i] in r
  {
    if n == 0 then []
    else
      var r := WithKey(nodeUrls, n - 1, key);
      if Key(nodeUrls[n - 1].addons) == key then r + [nodeUrls[n - 1]] else r
  }

  /** The first `n` urls, batched by the key of their services. */
  ghost predicate Batched(batches: map<string, seq<NodeUrl>>, nodeUrls: seq<NodeUrl>, n: nat)
    requires n <= |nodeUrls|
  {
    forall key :: BatchIs(batches, key, nodeUrls, n)
  }

  predicate BatchIs(batches: map<string, seq<NodeUrl>>, key: string, nodeUrls: seq<NodeUrl>, n: nat)
    requires n <= |nodeUrls|
  {
    var batch := WithKey(nodeUrls, n, key);
    (key in batches <==> batch != []) && (key in batches ==> batches[key] == batch)
  }

  function BatchOf(batches: map<string, seq<NodeUrl>>, key: string): seq<NodeUrl> {
    if key in batches then batches[key] else []
  }

  lemma BatchOneMore(batches: map<string, seq<NodeUrl>>, nodeUrls: seq<NodeUrl>, n: nat, key: string)
    requires n < |nodeUrls| && Batched(batches, nodeUrls, n) && key == Key(nodeUrls[n].addons)
    ensures Batched(batches[key := BatchOf(batches, key) + [nodeUrls[n]]], nodeUrls, n + 1)
  {
    var more, next := batches[key := BatchOf(batches, key) + [nodeUrls[n]]], n + 1;
    forall k ensures BatchIs(more, k, nodeUrls, next) {
      assert BatchIs(batches, k, nodeUrls, n);
    }
  }

  method BatchNodeUrlsByServices(nodeUrls: seq<NodeUrl>) returns (batches: map<string, seq<NodeUrl>>)
    ensures forall key :: key in batches <==> WithKey(nodeUrls, |nodeUrls|, key) != []
    ensures forall key :: key in batches ==> batches[key] == WithKey(nodeUrls, |nodeUrls|, key)
  {
    batches := map[];
    for n := 0 to |nodeUrls|
      invariant Batched(batches, nodeUrls, n)
    {
      var key := NewRouterKey(nodeUrls[n].addons);
      assert [] + [nodeUrls[n]] == [nodeUrls[n]];
      BatchOneMore(batches, nodeUrls, n, key);
      if key !in batches {
        batches := batches[key := [nodeUrls[n]]];
      } else {
        batches := batches[key := batches[key] + [nodeUrls[n]]];
      }
    }
    forall key
      ensures key in batches <==> WithKey(nodeUrls, |nodeUrls|, key) != []
      ensures key in batches ==> batches[key] == WithKey(nodeUrls, |nodeUrls|, key)
    {
      assert BatchIs(batches, key, nodeUrls, |nodeUrls|);
    }
  }

  // ---- What the urls require and what they support ---------------------------------------------------

  /** The addons of a url with these services; the empty addon is always tried. */
  function AddonsOf(p: Parser, services: seq<string>): set<string> { (Names(services) + {""}) * p.allowedAddons }

  function ExtensionsOf(p: Parser, services: seq<string>): set<string> { Names(services) * PureExtensions(p) }

  ghost predicate RequiredBy(p: Parser, services: seq<string>, r: Requirement) {
    r.addon in AddonsOf(p, services) && ForSubset(r, ExtensionsOf(p, services), r.addon)
  }

  ghost predicate SupportedBy(p: Parser, services: seq<string>, r: Requirement) {
    r.addon in AddonsOf(p, services) && r.extensions == KeyOf(ExtensionsOf(p, services))
  }

  /** Some url requires any subset of its extensions, with each of its addons. */
  ghost predicate Required(p: Parser, all: seq<seq<string>>, r: Requirement) {
    exists i :: 0 <= i < |all| && RequiredBy(p, all[i], r)
  }

  /** Some url has exactly these extensions, and the addon. */
  ghost predicate Supported(p: Parser, all: seq<seq<string>>, r: Requirement) {
    exists i :: 0 <= i < |all| && SupportedBy(p, all[i], r)
  }

  ghost predicate Complete(p: Parser, all: seq<seq<string>>) {
    forall r :: Required(p, all, r) ==> Supported(p, all, r)
  }

  lemma SupportedIsRequired(p: Parser, all: seq<seq<string>>, r: Requirement)
    requires Supported(p, all, r)
    ensures Required(p, all, r)
  {
    var i :| 0 <= i < |all| && SupportedBy(p, all[i], r);
    assert ForSubset(r, ExtensionsOf(p, all[i]), r.addon);
    assert RequiredBy(p, all[i], r);
  }

  predicate SameServices(p: Parser, a: seq<string>, b: seq<string>) {
    AddonsOf(p, a) == AddonsOf(p, b) && ExtensionsOf(p, a) == ExtensionsOf(p, b)
  }

  ghost predicate HasLike(p: Parser, a: seq<seq<string>>, b: seq<seq<string>>, j: int)
    requires 0 <= j < |b|
  {
    exists i :: 0 <= i < |a| && SameServices(p, a[i], b[j])
  }

  /** Each list of services of `b` has its like in `a`. */
  ghost predicate Covers(p: Parser, a: seq<seq<string>>, b: seq<seq<string>>) {
    forall j :: 0 <= j < |b| ==> HasLike(p, a, b, j)
  }

  lemma CoveredRequirements(p: Parser, a: seq<seq<string>>, b: seq<seq<string>>, r: Requirement)
    requires Covers(p, a, b)
    ensures Required(p, b, r) ==> Required(p, a, r)
    ensures Supported(p, b, r) ==> Supported(p, a, r)
  {
    if Required(p, b, r) {
      var j :| 0 <= j < |b| && RequiredBy(p, b[j], r);
      assert HasLike(p, a, b, j);
      var i :| 0 <= i < |a| && SameServices(p, a[i], b[j]);
      assert RequiredBy(p, a[i], r);
    }
    if Supported(p, b, r) {
      var j :| 0 <= j < |b| && SupportedBy(p, b[j], r);
      assert HasLike(p, a, b, j);
      var i :| 0 <= i < |a| && SameServices(p, a[i], b[j]);
      assert SupportedBy(p, a[i], r);
    }
  }

  lemma HoldsWithOneMore<T>(xs: seq<T>, x: T, holds: T -> bool)
    ensures var more := xs + [x];
      (exists i :: 0 <= i < |more| && holds(more[i])) <==> (exists i :: 0 <= i < |xs| && holds(xs[i])) || holds(x)
  {
    var more := xs + [x];
    assert more[|xs|] == x;
    forall i | 0 <= i < |xs| ensures more[i] == xs[i] {}
  }

  lemma RequiredWithOneMore(p: Parser, all: seq<seq<string>>, services: seq<string>, r: Requirement)
    ensures Required(p, all + [services], r) <==> Required(p, all, r) || RequiredBy(p, services, r)
  {
    HoldsWithOneMore(all, services, s => RequiredBy(p, s, r));
  }

  lemma SupportedWithOneMore(p: Parser, all: seq<seq<string>>, services: seq<string>, r: Requirement)
    ensures Supported(p, all + [services], r) <==> Supported(p, all, r) || SupportedBy(p, services, r)
  {
    HoldsWithOneMore(all, services, s => SupportedBy(p, s, r));
  }

  /** Between sets one of which holds the other, comparing sizes is comparing the sets. */
  lemma SizesShowInclusion<T>(small: set<T>, large: set<T>)
    requires small <= large
    ensures |large| > |small| <==> small != large
  {
    assert |large| == |small| + |large - small| by {
      assert large == small + (large - small);
    }
    if small != large {
      var x :| x in large && x !in small;
      assert x in large - small;
    }
  }

  // ---- The router --------------------------------------------------------------------------------

  datatype Entry = Entry(proxy: seq<NodeUrl>, addonsSupported: set<string>)

  predicate IsSupporting(e: Entry, addon: string) { addon == "" || addon in e.addonsSupported }

  type Router = map<string, seq<Entry>>

  predicate Routes(router: Router, key: string, e: Entry) {
    key in router && e in router[key]
  }

  ghost predicate CanServe(router: Router, addon: string, extensions: seq<string>) {
    exists e :: Routes(router, Key(extensions), e) && IsSupporting(e, addon)
  }

  method GetChainProxySupporting(router: Router, addon: string, extensions: seq<string>)
    returns (proxy: Option<seq<NodeUrl>>)
    ensures proxy.Some? <==> CanServe(router, addon, extensions)
    ensures proxy.Some? ==>
      exists e :: Routes(router, Key(extensions), e) && IsSupporting(e, addon) && proxy.value == e.proxy
  {
    var wantedRouterKey := NewRouterKey(extensions);
    if wantedRouterKey in router {
      var entries := router[wantedRouterKey];
      for i := 0 to |entries|
        invariant forall j :: 0 <= j < i ==> !IsSupporting(entries[j], addon)
      {
        if IsSupporting(entries[i], addon) {
          assert Routes(router, wantedRouterKey, entries[i]);
          return Some(entries[i].proxy);
        }
      }
    }
    return None;
  }

  /** All subsets of the names have been added for each of the addons. */
  ghost predicate AddsForAddons(after: set<Requirement>, before: set<Requirement>, names: set<string>,
                                addons: set<string>)
  {
    forall r :: r in after <==> r in before || (r.addon in addons && ForSubset(r, names, r.addon))
  }

  ghost predicate SupportsForAddons(after: set<Requirement>, before: set<Requirement>, key: string,
                                    addons: set<string>)
  {
    forall r :: r in after <==> r in before || (r.addon in addons && r.extensions == key)
  }

  lemma AddForOneMoreAddon(after: set<Requirement>, soFar: set<Requirement>, before: set<Requirement>,
                           names: set<string>, addons: set<string>, addon: string)
    requires AllClosed(soFar) && ProperSet(names)
    requires AddsForAddons(soFar, before, names, addons) && AddsSubsets(after, soFar, names, addon)
    ensures AllClosed(after) && AddsForAddons(after, before, names, addons + {addon})
  {
    AddingKeepsAllClosed(after, soFar, names, addon);
    forall r ensures r in after <==> r in before || (r.addon in addons + {addon} && ForSubset(r, names, r.addon)) {
      assert r in after <==> r in soFar || ForSubset(r, names, addon);
    }
  }

  lemma SupportOneMoreAddon(soFar: set<Requirement>, before: set<Requirement>, key: string, addons: set<string>,
                            addon: string)
    requires SupportsForAddons(soFar, before, key, addons)
    ensures SupportsForAddons(soFar + {Requirement(key, addon)}, before, key, addons + {addon})
  {}

  /** One addon of the loop below. */
  method RequireAddon(extensions: seq<string>, addon: string, required: Requirements,
                      ghost before: set<Requirement>, ghost addons: set<string>)
    requires Distinct(extensions) && ProperSet(Names(extensions))
    requires AllClosed(required.marked) && AddsForAddons(required.marked, before, Names(extensions), addons)
    modifies required
    ensures AllClosed(required.marked) && AddsForAddons(required.marked, before, Names(extensions), addons + {addon})
  {
    ghost var soFar := required.marked;
    AllClosedIsClosedBelow(soFar, Names(extensions), addon);
    required.PopulateRequiredForAddon(addon, extensions);
    AddForOneMoreAddon(required.marked, soFar, before, Names(extensions), addons, addon);
  }

  method UpdateRouteCombinations(extensions: seq<string>, addons: seq<string>, required: Requirements,
                                 supportedBefore: set<Requirement>)
    returns (fullySupportedRouterKey: string, supported: set<Requirement>, addonsSupported: set<string>)
    requires Distinct(extensions) && ProperSet(Names(extensions)) && AllClosed(required.marked)
    modifies required
    ensures AllClosed(required.marked)
    ensures fullySupportedRouterKey == KeyOf(Names(extensions)) && addonsSupported == Names(addons)
    ensures AddsForAddons(required.marked, old(required.marked), Names(extensions), Names(addons))
    ensures SupportsForAddons(supported, supportedBefore, fullySupportedRouterKey, Names(addons))
  {
    fullySupportedRouterKey := NewRouterKey(extensions);
    KeyOfNames(extensions);
    supported, addonsSupported := supportedBefore, {};
    ghost var before := required.marked;
    for i := 0 to |addons|
      invariant AllClosed(required.marked)
      invariant addonsSupported == Names(addons[..i])
      invariant AddsForAddons(required.marked, before, Names(extensions), addonsSupported)
      invariant SupportsForAddons(supported, supportedBefore, fullySupportedRouterKey, addonsSupported)
    {
      var addon := addons[i];
      NamesOfPrefix(addons, i);
      RequireAddon(extensions, addon, required, before, addonsSupported);
      SupportOneMoreAddon(supported, supportedBefore, fullySupportedRouterKey, addonsSupported, addon);
      supported := supported + {Requirement(fullySupportedRouterKey, addon)};
      addonsSupported := addonsSupported + {addon};
    }
    assert addons[..|addons|] == addons;
  }

  lemma NamesOfPrefix(xs: seq<string>, i: nat)
    requires i < |xs|
    ensures Names(xs[..i + 1]) == Names(xs[..i]) + {xs[i]}
  {
    assert xs[..i + 1] == xs[..i] + [xs[i]];
    NamesOfSum(xs[..i], [xs[i]]);
  }

  lemma AllClosedIsClosedBelow(required: set<Requirement>, names: set<string>, addon: string)
    requires AllClosed(required)
    ensures ClosedBelow(required, names, addon)
  {}

  lemma AddingKeepsAllClosed(after: set<Requirement>, before: set<Requirement>, names: set<string>, addon: string)
    requires AllClosed(before) && AddsSubsets(after, before, names, addon) && ProperSet(names)
    ensures AllClosed(after)
  {
    forall s, b | ProperSet(s) && Marked(after, s, b) ensures Closed(after, s, b) {
      AddingSubsetsKeepsClosed(after, before, names, addon, s, b);
    }
  }

  datatype Error = InvalidService | ProxyUnavailable | RequirementsNotSupported

  predicate AllKnown(p: Parser, services: seq<string>) {
    forall name :: name in services ==> Known(p, name)
  }

  /** The entry made for the batch of urls with these services. */
  function EntryFor(p: Parser, nodeUrls: seq<NodeUrl>, services: seq<string>): Entry {
    Entry(WithKey(nodeUrls, |nodeUrls|, Key(services)), AddonsOf(p, services))
  }

  ghost predicate RoutedAs(p: Parser, nodeUrls: seq<NodeUrl>, services: seq<string>, key: string, e: Entry) {
    key == KeyOf(ExtensionsOf(p, services)) && e == EntryFor(p, nodeUrls, services)
  }

  /** The router holds, under the key of its extensions, the entry of every list of services, and nothing else. */
  ghost predicate Built(router: Router, p: Parser, nodeUrls: seq<NodeUrl>, all: seq<seq<string>>) {
    forall key, e :: Routes(router, key, e) <==> exists i :: 0 <= i < |all| && RoutedAs(p, nodeUrls, all[i], key, e)
  }

  ghost predicate ProperParser(p: Parser) {
    ProperSet(PureExtensions(p))
  }

  function AddEntry(router: Router, key: string, e: Entry): (r: Router)
    ensures forall k, x :: Routes(r, k, x) <==> Routes(router, k, x) || (k == key && x == e)
  {
    if key !in router then router[key := [e]] else router[key := router[key] + [e]]
  }

  lemma BuiltWithOneMore(router: Router, p: Parser, nodeUrls: seq<NodeUrl>, all: seq<seq<string>>,
                         services: seq<string>)
    requires Built(router, p, nodeUrls, all)
    ensures Built(AddEntry(router, KeyOf(ExtensionsOf(p, services)), EntryFor(p, nodeUrls, services)),
                  p, nodeUrls, all + [services])
  {
    var more := all + [services];
    var after := AddEntry(router, KeyOf(ExtensionsOf(p, services)), EntryFor(p, nodeUrls, services));
    forall key, e
      ensures Routes(after, key, e) <==> exists i :: 0 <= i < |more| && RoutedAs(p, nodeUrls, more[i], key, e)
    {
      HoldsWithOneMore(all, services, s => RoutedAs(p, nodeUrls, s, key, e));
    }
  }

  /** What has been handled of the batches. */
  ghost predicate Handled(p: Parser, nodeUrls: seq<NodeUrl>, seen: seq<seq<string>>,
                          required: set<Requirement>, supported: set<Requirement>, router: Router) {
    && AllClosed(required)
    && (forall r :: r in required <==> Required(p, seen, r))
    && (forall r :: r in supported <==> Supported(p, seen, r))
    && Built(router, p, nodeUrls, seen)
  }

  lemma HandledOneMore(p: Parser, nodeUrls: seq<NodeUrl>, seen: seq<seq<string>>, services: seq<string>,
                       required: set<Requirement>, supported: set<Requirement>, router: Router,
                       required': set<Requirement>, supported': set<Requirement>)
    requires Handled(p, nodeUrls, seen, required, supported, router) && AllClosed(required')
    requires AddsForAddons(required', required, ExtensionsOf(p, services), AddonsOf(p, services))
    requires SupportsForAddons(supported', supported, KeyOf(ExtensionsOf(p, services)), AddonsOf(p, services))
    ensures Handled(p, nodeUrls, seen + [services], required', supported',
                    AddEntry(router, KeyOf(ExtensionsOf(p, services)), EntryFor(p, nodeUrls, services)))
  {
    BuiltWithOneMore(router, p, nodeUrls, seen, services);
    forall r
      ensures r in required' <==> Required(p, seen + [services], r)
      ensures r in supported' <==> Supported(p, seen + [services], r)
    {
      RequiredWithOneMore(p, seen, services, r);
      SupportedWithOneMore(p, seen, services, r);
    }
  }

  /** One batch: its services, their combinations, and its entry. */
  method AddBatch(p: Parser, ghost nodeUrls: seq<NodeUrl>, batch: seq<NodeUrl>, unreachable: set<seq<NodeUrl>>,
                  required: Requirements, supported: set<Requirement>, router: Router, ghost seen: seq<seq<string>>)
    returns (error: Option<Error>, supported': set<Requirement>, router': Router)
    requires batch != [] && ProperParser(p)
    requires batch == WithKey(nodeUrls, |nodeUrls|, Key(batch[0].addons))
    requires Handled(p, nodeUrls, seen, required.marked, supported, router)
    modifies required
    ensures error == Some(InvalidService) <==> !AllKnown(p, batch[0].addons)
    ensures error == Some(ProxyUnavailable) <==> AllKnown(p, batch[0].addons) && batch in unreachable
    ensures error != Some(RequirementsNotSupported)
    ensures error.None? ==> Handled(p, nodeUrls, seen + [batch[0].addons], required.marked, supported', router')
  {
    var services := batch[0].addons;
    var addons, extensions, ok := SeparateAddonsExtensions(p, services + [""]);
    NamesOfSum(services, [""]);
    assert Names(addons) == AddonsOf(p, services) && Names(extensions) == ExtensionsOf(p, services);
    supported', router' := supported, router;
    if !ok {
      return Some(InvalidService), supported', router';
    }
    ghost var before := required.marked;
    var routerKey, addonsSupported;
    routerKey, supported', addonsSupported := UpdateRouteCombinations(extensions, addons, required, supported);
    if batch in unreachable {
      return Some(ProxyUnavailable), supported', router';
    }
    HandledOneMore(p, nodeUrls, seen, services, before, supported, router, required.marked, supported');
    router' := AddEntry(router, routerKey, Entry(batch, addonsSupported));
    return None, supported', router';
  }

  // ---- From batches back to urls ---------------------------------------------------------------------

  function Services(nodeUrls: seq<NodeUrl>): (r: seq<seq<string>>)
    ensures |r| == |nodeUrls| && forall i :: 0 <= i < |r| ==> r[i] == nodeUrls[i].addons
  {
    seq(|nodeUrls|, i requires 0 <= i < |nodeUrls| => nodeUrls[i].addons)
  }

  lemma SameUpToEmpty(a: seq<string>, b: seq<string>)
    requires SeparatorFree(a) && SeparatorFree(b) && Key(a) == Key(b)
    ensures Names(a) + {""} == Names(b) + {""}
  {
    SameKeyExactly(a, b);
  }

  /** Two lists of services with one key are served alike: they differ at most in the empty name. */
  lemma SameKeySameServices(p: Parser, a: seq<string>, b: seq<string>)
    requires SeparatorFree(a) && SeparatorFree(b) && Key(a) == Key(b)
    ensures SameServices(p, a, b)
  {
    SameUpToEmpty(a, b);
    assert ExtensionsOf(p, a) == (Names(a) + {""}) * PureExtensions(p);
    assert ExtensionsOf(p, b) == (Names(b) + {""}) * PureExtensions(p);
  }

  lemma SameKeyBothKnown(p: Parser, a: seq<string>, b: seq<string>)
    requires SeparatorFree(a) && SeparatorFree(b) && Key(a) == Key(b) && AllKnown(p, a)
    ensures AllKnown(p, b)
  {
    SameUpToEmpty(a, b);
    forall x | x in b ensures Known(p, x) {
      assert x in Names(b) + {""};
      assert x in Names(a) + {""};
    }
  }

  /** The batch of the url has been looked at, by way of some url of that batch. */
  ghost predicate IsSeen(seen: seq<seq<string>>, nodeUrls: seq<NodeUrl>, i: int)
    requires 0 <= i < |nodeUrls|
  {
    exists j :: 0 <= j < |seen| && Key(seen[j]) == Key(nodeUrls[i].addons)
  }

  ghost predicate IsOfUrl(seen: seq<seq<string>>, nodeUrls: seq<NodeUrl>, j: int)
    requires 0 <= j < |seen|
  {
    exists i :: 0 <= i < |nodeUrls| && seen[j] == nodeUrls[i].addons
  }

  /** The services seen stand for those of all urls. */
  ghost predicate Represents(seen: seq<seq<string>>, nodeUrls: seq<NodeUrl>) {
    && (forall i :: 0 <= i < |nodeUrls| ==> IsSeen(seen, nodeUrls, i))
    && (forall j :: 0 <= j < |seen| ==> IsOfUrl(seen, nodeUrls, j))
  }

  ghost predicate AllSeparatorFree(nodeUrls: seq<NodeUrl>) {
    forall i :: 0 <= i < |nodeUrls| ==> SeparatorFree(nodeUrls[i].addons)
  }

  lemma SeenServices(p: Parser, seen: seq<seq<string>>, nodeUrls: seq<NodeUrl>, i: nat) returns (j: nat)
    requires Represents(seen, nodeUrls) && AllSeparatorFree(nodeUrls) && i < |nodeUrls|
    ensures j < |seen| && Key(seen[j]) == Key(nodeUrls[i].addons) && SeparatorFree(seen[j])
    ensures SameServices(p, seen[j], nodeUrls[i].addons)
  {
    assert IsSeen(seen, nodeUrls, i);
    j :| 0 <= j < |seen| && Key(seen[j]) == Key(nodeUrls[i].addons);
    assert IsOfUrl(seen, nodeUrls, j);
    SameKeySameServices(p, seen[j], nodeUrls[i].addons);
  }

  lemma RepresentsCovers(p: Parser, seen: seq<seq<string>>, nodeUrls: seq<NodeUrl>)
    requires Represents(seen, nodeUrls) && AllSeparatorFree(nodeUrls)
    ensures Covers(p, seen, Services(nodeUrls)) && Covers(p, Services(nodeUrls), seen)
  {
    var all := Services(nodeUrls);
    forall i | 0 <= i < |all| ensures HasLike(p, seen, all, i) {
      var j := SeenServices(p, seen, nodeUrls, i);
    }
    forall j | 0 <= j < |seen| ensures HasLike(p, all, seen, j) {
      assert IsOfUrl(seen, nodeUrls, j);
      var i :| 0 <= i < |nodeUrls| && seen[j] == nodeUrls[i].addons;
      assert all[i] == seen[j];
    }
  }

  lemma CompleteForUrls(p: Parser, seen: seq<seq<string>>, nodeUrls: seq<NodeUrl>)
    requires Represents(seen, nodeUrls) && AllSeparatorFree(nodeUrls)
    ensures Complete(p, seen) <==> Complete(p, Services(nodeUrls))
  {
    RepresentsCovers(p, seen, nodeUrls);
    forall r
      ensures Required(p, seen, r) <==> Required(p, Services(nodeUrls), r)
      ensures Supported(p, seen, r) <==> Supported(p, Services(nodeUrls), r)
    {
      CoveredRequirements(p, seen, Services(nodeUrls), r);
      CoveredRequirements(p, Services(nodeUrls), seen, r);
    }
  }

  lemma BuiltForUrls(router: Router, p: Parser, seen: seq<seq<string>>, nodeUrls: seq<NodeUrl>)
    requires Represents(seen, nodeUrls) && AllSeparatorFree(nodeUrls) && Built(router, p, nodeUrls, seen)
    ensures Built(router, p, nodeUrls, Services(nodeUrls))
  {
    var all := Services(nodeUrls);
    forall key, e
      ensures Routes(router, key, e) <==> exists i :: 0 <= i < |all| && RoutedAs(p, nodeUrls, all[i], key, e)
    {
      if Routes(router, key, e) {
        var j :| 0 <= j < |seen| && RoutedAs(p, nodeUrls, seen[j], key, e);
        assert IsOfUrl(seen, nodeUrls, j);
        var i :| 0 <= i < |nodeUrls| && seen[j] == nodeUrls[i].addons;
        assert all[i] == seen[j];
      }
      if i :| 0 <= i < |all| && RoutedAs(p, nodeUrls, all[i], key, e) {
        var j := SeenServices(p, seen, nodeUrls, i);
        assert RoutedAs(p, nodeUrls, seen[j], key, e);
      }
    }
  }

  /** In a complete router, whatever subset of a url's extensions is wanted with one of its addons is served. */
  lemma CompleteServes(router: Router, p: Parser, nodeUrls: seq<NodeUrl>, i: nat, addon: string,
                       extensions: seq<string>)
    requires Built(router, p, nodeUrls, Services(nodeUrls)) && Complete(p, Services(nodeUrls))
    requires i < |nodeUrls| && MayBeAsked(p, nodeUrls[i], addon, extensions)
    ensures CanServe(router, addon, extensions)
  {
    var all := Services(nodeUrls);
    KeyOfNames(extensions);
    var r := Requirement(Key(extensions), addon);
    assert ForSubset(r, ExtensionsOf(p, all[i]), addon);
    assert RequiredBy(p, all[i], r);
    assert Required(p, all, r);
    var j :| 0 <= j < |all| && SupportedBy(p, all[j], r);
    assert RoutedAs(p, nodeUrls, all[j], r.extensions, EntryFor(p, nodeUrls, all[j]));
    assert Routes(router, Key(extensions), EntryFor(p, nodeUrls, all[j]));
  }

  // ---- Which urls a request is routed to ---------------------------------------------------------------

  /** The url lists the addon, if one is asked for, and its extensions are exactly those asked for. */
  predicate MadeFor(u: NodeUrl, p: Parser, addon: string, extensions: set<string>) {
    && (addon != "" ==> addon in u.addons && addon in p.allowedAddons)
    && extensions == set x | x in u.addons && x != "" && x in p.allowedExtensions && x !in p.allowedAddons
  }

  lemma MadeForExactly(u: NodeUrl, p: Parser, addon: string, extensions: set<string>)
    ensures MadeFor(u, p, addon, extensions) <==>
      (addon == "" || addon in AddonsOf(p, u.addons)) && extensions == ExtensionsOf(p, u.addons)
  {
    assert ExtensionsOf(p, u.addons)
        == set x | x in u.addons && x != "" && x in p.allowedExtensions && x !in p.allowedAddons;
  }

  /** The key of what is asked for is the key of what a url has: they are the same names, but for the empty one. */
  lemma SameKeySameExtensions(p: Parser, services: seq<string>, extensions: seq<string>)
    requires ProperParser(p) && SeparatorFree(extensions) && Key(extensions) == KeyOf(ExtensionsOf(p, services))
    ensures Names(extensions) - {""} == ExtensionsOf(p, services)
  {
    var names := ExtensionsOf(p, services);
    forall x | x in Listing(names) ensures Proper(x) {
      assert x in Names(Listing(names));
    }
    SameKeyExactly(extensions, Listing(names));
    assert "" !in names;
  }

  /** Every url of the entry a request is routed to lists the addon, and has exactly the extensions asked for. */
  lemma RoutedToMatchingUrls(router: Router, p: Parser, nodeUrls: seq<NodeUrl>, addon: string, extensions: seq<string>,
                             e: Entry, u: NodeUrl)
    requires Built(router, p, nodeUrls, Services(nodeUrls)) && AllSeparatorFree(nodeUrls) && ProperParser(p)
    requires SeparatorFree(extensions) && Routes(router, Key(extensions), e) && IsSupporting(e, addon) && u in e.proxy
    ensures u in nodeUrls && MadeFor(u, p, addon, Names(extensions) - {""})
  {
    var all := Services(nodeUrls);
    var i :| 0 <= i < |all| && RoutedAs(p, nodeUrls, all[i], Key(extensions), e);
    assert all[i] == nodeUrls[i].addons && Key(u.addons) == Key(all[i]);
    SameKeySameServices(p, all[i], u.addons);
    SameKeySameExtensions(p, all[i], extensions);
    MadeForExactly(u, p, addon, Names(extensions) - {""});
  }

  /** A request is served exactly when some url is made for it. */
  lemma ServedIffSomeUrl(router: Router, p: Parser, nodeUrls: seq<NodeUrl>, addon: string, extensions: seq<string>)
    requires Built(router, p, nodeUrls, Services(nodeUrls)) && AllSeparatorFree(nodeUrls) && ProperParser(p)
    requires ProperSet(Names(extensions))
    ensures CanServe(router, addon, extensions) <==>
      exists u :: u in nodeUrls && MadeFor(u, p, addon, Names(extensions))
  {
    var all := Services(nodeUrls);
    ProperHasNoBlank(extensions);
    if CanServe(router, addon, extensions) {
      var e :| Routes(router, Key(extensions), e) && IsSupporting(e, addon);
      var i :| 0 <= i < |all| && RoutedAs(p, nodeUrls, all[i], Key(extensions), e);
      assert nodeUrls[i] in e.proxy;
      RoutedToMatchingUrls(router, p, nodeUrls, addon, extensions, e, nodeUrls[i]);
    }
    if u :| u in nodeUrls && MadeFor(u, p, addon, Names(extensions)) {
      var i :| 0 <= i < |nodeUrls| && nodeUrls[i] == u;
      MadeForExactly(u, p, addon, Names(extensions));
      KeyOfNames(extensions);
      assert RoutedAs(p, nodeUrls, all[i], Key(extensions), EntryFor(p, nodeUrls, all[i]));
      assert Routes(router, Key(extensions), EntryFor(p, nodeUrls, all[i]));
    }
  }

  lemma ProperHasNoBlank(extensions: seq<string>)
    requires ProperSet(Names(extensions))
    ensures SeparatorFree(extensions) && Names(extensions) - {""} == Names(extensions)
  {
    forall x | x in extensions ensures SEP !in x {
      assert x in Names(extensions);
    }
  }

  /** Some url is made for whatever may be asked of any url. */
  ghost predicate EveryRequestHasUrl(p: Parser, nodeUrls: seq<NodeUrl>) {
    forall i, addon, extensions :: 0 <= i < |nodeUrls| && MayBeAsked(p, nodeUrls[i], addon, extensions) ==>
      exists u :: u in nodeUrls && MadeFor(u, p, addon, Names(extensions))
  }

  lemma RequestHasUrl(p: Parser, nodeUrls: seq<NodeUrl>, i: nat, addon: string, extensions: seq<string>)
    requires Complete(p, Services(nodeUrls)) && ProperParser(p)
    requires i < |nodeUrls| && MayBeAsked(p, nodeUrls[i], addon, extensions)
    ensures exists u :: u in nodeUrls && MadeFor(u, p, addon, Names(extensions))
  {
    var all := Services(nodeUrls);
    KeyOfNames(extensions);
    var r := Requirement(Key(extensions), addon);
    assert ForSubset(r, ExtensionsOf(p, all[i]), addon);
    assert RequiredBy(p, all[i], r);
    assert Required(p, all, r);
    var j :| 0 <= j < |all| && SupportedBy(p, all[j], r);
    KeyOfInjective(Names(extensions), ExtensionsOf(p, all[j]));
    MadeForExactly(nodeUrls[j], p, addon, Names(extensions));
    assert nodeUrls[j] in nodeUrls;
  }

  lemma RequirementHasUrl(p: Parser, nodeUrls: seq<NodeUrl>, r: Requirement)
    requires EveryRequestHasUrl(p, nodeUrls) && Required(p, Services(nodeUrls), r)
    ensures Supported(p, Services(nodeUrls), r)
  {
    var all := Services(nodeUrls);
    var i :| 0 <= i < |all| && RequiredBy(p, all[i], r);
    var t :| t <= ExtensionsOf(p, all[i]) && r.extensions == KeyOf(t);
    assert MayBeAsked(p, nodeUrls[i], r.addon, Listing(t));
    var u :| u in nodeUrls && MadeFor(u, p, r.addon, Names(Listing(t)));
    var j :| 0 <= j < |nodeUrls| && nodeUrls[j] == u;
    MadeForExactly(u, p, r.addon, t);
    assert SupportedBy(p, all[j], r);
  }

  /** The start-up check passes exactly when some url is made for whatever may be asked of any url. */
  lemma CompleteExactly(p: Parser, nodeUrls: seq<NodeUrl>)
    requires ProperParser(p)
    ensures Complete(p, Services(nodeUrls)) <==> EveryRequestHasUrl(p, nodeUrls)
  {
    if Complete(p, Services(nodeUrls)) {
      forall i, addon, extensions | 0 <= i < |nodeUrls| && MayBeAsked(p, nodeUrls[i], addon, extensions)
        ensures exists u :: u in nodeUrls && MadeFor(u, p, addon, Names(extensions))
      {
        RequestHasUrl(p, nodeUrls, i, addon, extensions);
      }
    }
    if EveryRequestHasUrl(p, nodeUrls) {
      forall r | Required(p, Services(nodeUrls), r) ensures Supported(p, Services(nodeUrls), r) {
        RequirementHasUrl(p, nodeUrls, r);
      }
    }
  }

  predicate AllValid(p: Parser, nodeUrls: seq<NodeUrl>) {
    forall i :: 0 <= i < |nodeUrls| ==> AllKnown(p, nodeUrls[i].addons)
  }

  /** The proxy for the services can be made. */
  predicate Reachable(nodeUrls: seq<NodeUrl>, unreachable: set<seq<NodeUrl>>, services: seq<string>) {
    WithKey(nodeUrls, |nodeUrls|, Key(services)) !in unreachable
  }

  predicate AllReachable(nodeUrls: seq<NodeUrl>, unreachable: set<seq<NodeUrl>>) {
    forall i :: 0 <= i < |nodeUrls| ==> Reachable(nodeUrls, unreachable, nodeUrls[i].addons)
  }

  predicate KeySeen(seen: seq<seq<string>>, key: string) {
    exists j :: 0 <= j < |seen| && Key(seen[j]) == key
  }

  ghost predicate IsFine(p: Parser, nodeUrls: seq<NodeUrl>, unreachable: set<seq<NodeUrl>>, seen: seq<seq<string>>,
                         j: int)
    requires 0 <= j < |seen|
  {
    IsOfUrl(seen, nodeUrls, j) && AllKnown(p, seen[j]) && Reachable(nodeUrls, unreachable, seen[j])
  }

  ghost predicate FineSoFar(p: Parser, nodeUrls: seq<NodeUrl>, unreachable: set<seq<NodeUrl>>, seen: seq<seq<string>>) {
    forall j :: 0 <= j < |seen| ==> IsFine(p, nodeUrls, unreachable, seen, j)
  }

  lemma KeySeenWithOneMore(seen: seq<seq<string>>, services: seq<string>, key: string)
    ensures KeySeen(seen + [services], key) <==> KeySeen(seen, key) || key == Key(services)
  {
    var more := seen + [services];
    if KeySeen(seen, key) {
      var j :| 0 <= j < |seen| && Key(seen[j]) == key;
      assert more[j] == seen[j];
    }
    assert more[|seen|] == services;
  }

  lemma FineWithOneMore(p: Parser, nodeUrls: seq<NodeUrl>, unreachable: set<seq<NodeUrl>>, seen: seq<seq<string>>,
                        i: nat)
    requires FineSoFar(p, nodeUrls, unreachable, seen) && i < |nodeUrls|
    requires AllKnown(p, nodeUrls[i].addons) && Reachable(nodeUrls, unreachable, nodeUrls[i].addons)
    ensures FineSoFar(p, nodeUrls, unreachable, seen + [nodeUrls[i].addons])
  {
    var more := seen + [nodeUrls[i].addons];
    assert more[|seen|] == nodeUrls[i].addons;
    assert forall j :: 0 <= j < |seen| ==> more[j] == seen[j];
    forall j | 0 <= j < |more| ensures IsFine(p, nodeUrls, unreachable, more, j) {
      if j < |seen| {
        assert IsFine(p, nodeUrls, unreachable, seen, j);
      }
    }
  }

  lemma FineForUrls(p: Parser, nodeUrls: seq<NodeUrl>, unreachable: set<seq<NodeUrl>>, seen: seq<seq<string>>)
    requires FineSoFar(p, nodeUrls, unreachable, seen) && Represents(seen, nodeUrls) && AllSeparatorFree(nodeUrls)
    ensures AllValid(p, nodeUrls) && AllReachable(nodeUrls, unreachable)
  {
    forall i | 0 <= i < |nodeUrls|
      ensures AllKnown(p, nodeUrls[i].addons) && Reachable(nodeUrls, unreachable, nodeUrls[i].addons)
    {
      var j := SeenServices(p, seen, nodeUrls, i);
      assert IsFine(p, nodeUrls, unreachable, seen, j);
      SameKeyBothKnown(p, seen[j], nodeUrls[i].addons);
    }
  }

  lemma SizesShowCompleteness(p: Parser, seen: seq<seq<string>>, required: set<Requirement>,
                              supported: set<Requirement>)
    requires forall r :: r in required <==> Required(p, seen, r)
    requires forall r :: r in supported <==> Supported(p, seen, r)
    ensures |required| > |supported| <==> !Complete(p, seen)
  {
    forall r | r in supported ensures r in required {
      SupportedIsRequired(p, seen, r);
    }
    SizesShowInclusion(supported, required);
  }

  /** What the router that is made promises: it holds the urls' entries, and serves whatever they may be asked. */
  ghost predicate Serves(router: Router, p: Parser, nodeUrls: seq<NodeUrl>) {
    && Built(router, p, nodeUrls, Services(nodeUrls))
    && (forall i, addon, extensions :: 0 <= i < |nodeUrls| && MayBeAsked(p, nodeUrls[i], addon, extensions) ==>
      CanServe(router, addon, extensions))
  }

  /** The addon is one of the url's, the extensions are some of the url's. */
  predicate MayBeAsked(p: Parser, nodeUrl: NodeUrl, addon: string, extensions: seq<string>) {
    addon in AddonsOf(p, nodeUrl.addons) && Names(extensions) <= ExtensionsOf(p, nodeUrl.addons)
  }

  /**
    A router is made exactly when all names are known, all proxies can be made, and every subset of a url's
    extensions is, with each of the url's addons, fully served by some url; it then serves all of those.
   */
  ghost predicate RightResult(result: Result<Router, Error>, p: Parser, nodeUrls: seq<NodeUrl>,
                              unreachable: set<seq<NodeUrl>>)
  {
    match result
    case Success(router) =>
      && AllValid(p, nodeUrls) && AllReachable(nodeUrls, unreachable)
      && Complete(p, Services(nodeUrls)) && Serves(router, p, nodeUrls)
    case Failure(InvalidService) => !AllValid(p, nodeUrls)
    case Failure(ProxyUnavailable) => !AllReachable(nodeUrls, unreachable)
    case Failure(RequirementsNotSupported) =>
      AllValid(p, nodeUrls) && AllReachable(nodeUrls, unreachable) && !Complete(p, Services(nodeUrls))
  }

  lemma FailureIsRight(error: Error, p: Parser, nodeUrls: seq<NodeUrl>, unreachable: set<seq<NodeUrl>>)
    requires error == InvalidService ==> !AllValid(p, nodeUrls)
    requires error == ProxyUnavailable ==> !AllReachable(nodeUrls, unreachable)
    requires error != RequirementsNotSupported
    ensures RightResult(Failure(error), p, nodeUrls, unreachable)
  {}

  lemma ConclusionForUrls(p: Parser, nodeUrls: seq<NodeUrl>, unreachable: set<seq<NodeUrl>>, seen: seq<seq<string>>,
                          required: set<Requirement>, supported: set<Requirement>, router: Router)
    requires Handled(p, nodeUrls, seen, required, supported, router)
    requires FineSoFar(p, nodeUrls, unreachable, seen) && AllSeparatorFree(nodeUrls)
    requires forall i :: 0 <= i < |nodeUrls| ==> KeySeen(seen, Key(nodeUrls[i].addons))
    ensures RightResult(if |required| > |supported| then Failure(RequirementsNotSupported) else Success(router),
                        p, nodeUrls, unreachable)
  {
    forall i | 0 <= i < |nodeUrls| ensures IsSeen(seen, nodeUrls, i) {
      assert KeySeen(seen, Key(nodeUrls[i].addons));
    }
    forall j | 0 <= j < |seen| ensures IsOfUrl(seen, nodeUrls, j) {
      assert IsFine(p, nodeUrls, unreachable, seen, j);
    }
    FineForUrls(p, nodeUrls, unreachable, seen);
    SizesShowCompleteness(p, seen, required, supported);
    CompleteForUrls(p, seen, nodeUrls);
    BuiltForUrls(router, p, seen, nodeUrls);
    if Complete(p, Services(nodeUrls)) {
      forall i, addon, extensions | 0 <= i < |nodeUrls| && MayBeAsked(p, nodeUrls[i], addon, extensions)
        ensures CanServe(router, addon, extensions)
      {
        CompleteServes(router, p, nodeUrls, i, addon, extensions);
      }
    }
  }

  lemma FirstOfBatch(nodeUrls: seq<NodeUrl>, key: string) returns (i: nat)
    requires WithKey(nodeUrls, |nodeUrls|, key) != []
    ensures i < |nodeUrls| && nodeUrls[i] == WithKey(nodeUrls, |nodeUrls|, key)[0] && Key(nodeUrls[i].addons) == key
  {
    var first := WithKey(nodeUrls, |nodeUrls|, key)[0];
    i :| i < |nodeUrls| && nodeUrls[i] == first;
  }

  /** What one round adds to what was seen, or why it fails. */
  lemma RoundOutcome(p: Parser, nodeUrls: seq<NodeUrl>, unreachable: set<seq<NodeUrl>>, seen: seq<seq<string>>,
                     key: string, services: seq<string>)
    requires FineSoFar(p, nodeUrls, unreachable, seen)
    requires WithKey(nodeUrls, |nodeUrls|, key) != [] && services == WithKey(nodeUrls, |nodeUrls|, key)[0].addons
    ensures Key(services) == key
    ensures AllKnown(p, services) && WithKey(nodeUrls, |nodeUrls|, key) !in unreachable ==>
      FineSoFar(p, nodeUrls, unreachable, seen + [services])
      && forall k :: KeySeen(seen + [services], k) <==> KeySeen(seen, k) || k == key
    ensures !AllKnown(p, services) ==> !AllValid(p, nodeUrls)
    ensures WithKey(nodeUrls, |nodeUrls|, key) in unreachable ==> !AllReachable(nodeUrls, unreachable)
  {
    var i := FirstOfBatch(nodeUrls, key);
    if AllKnown(p, services) && WithKey(nodeUrls, |nodeUrls|, key) !in unreachable {
      FineWithOneMore(p, nodeUrls, unreachable, seen, i);
      forall k ensures KeySeen(seen + [services], k) <==> KeySeen(seen, k) || k == key {
        KeySeenWithOneMore(seen, services, k);
      }
    }
    assert AllReachable(nodeUrls, unreachable) ==> Reachable(nodeUrls, unreachable, nodeUrls[i].addons);
  }

  /** One round of the loop below. */
  method HandleBatch(p: Parser, ghost nodeUrls: seq<NodeUrl>, ghost key: string, batch: seq<NodeUrl>,
                     unreachable: set<seq<NodeUrl>>, required: Requirements, supported: set<Requirement>,
                     router: Router, ghost seen: seq<seq<string>>)
    returns (error: Option<Error>, supported': set<Requirement>, router': Router, ghost seen': seq<seq<string>>)
    requires ProperParser(p) && batch != [] && batch == WithKey(nodeUrls, |nodeUrls|, key)
    requires Handled(p, nodeUrls, seen, required.marked, supported, router) && FineSoFar(p, nodeUrls, unreachable, seen)
    modifies required
    ensures error.None? ==>
      Handled(p, nodeUrls, seen', required.marked, supported', router') && FineSoFar(p, nodeUrls, unreachable, seen')
    ensures error.None? ==> forall k :: KeySeen(seen', k) <==> KeySeen(seen, k) || k == key
    ensures error == Some(InvalidService) ==> !AllValid(p, nodeUrls)
    ensures error == Some(ProxyUnavailable) ==> !AllReachable(nodeUrls, unreachable)
    ensures error != Some(RequirementsNotSupported)
  {
    RoundOutcome(p, nodeUrls, unreachable, seen, key, batch[0].addons);
    seen' := seen + [batch[0].addons];
    error, supported', router' := AddBatch(p, nodeUrls, batch, unreachable, required, supported, router, seen);
  }

  method NewChainRouter(p: Parser, nodeUrls: seq<NodeUrl>, unreachable: set<seq<NodeUrl>>)
    returns (result: Result<Router, Error>)
    requires ProperParser(p) && AllSeparatorFree(nodeUrls)
    ensures RightResult(result, p, nodeUrls, unreachable)
  {
    var batches := BatchNodeUrlsByServices(nodeUrls);
    var required := new Requirements();
    var supported: set<Requirement> := {};
    var router: Router := map[];
    ghost var seen: seq<seq<string>> := [];
    var left := batches.Keys;
    while left != {}
      modifies required
      invariant left <= batches.Keys
      invariant Handled(p, nodeUrls, seen, required.marked, supported, router)
      invariant FineSoFar(p, nodeUrls, unreachable, seen)
      invariant forall key :: key in batches && key !in left ==> KeySeen(seen, key)
      decreases left
    {
      var key :| key in left;
      var batch := batches[key];
      var error;
      error, supported, router, seen :=
        HandleBatch(p, nodeUrls, key, batch, unreachable, required, supported, router, seen);
      if error.Some? {
        FailureIsRight(error.value, p, nodeUrls, unreachable);
        return Failure(error.value);
      }
      left := left - {key};
    }
    forall i | 0 <= i < |nodeUrls| ensures KeySeen(seen, Key(nodeUrls[i].addons)) {
      assert nodeUrls[i] in WithKey(nodeUrls, |nodeUrls|, Key(nodeUrls[i].addons));
    }
    ConclusionForUrls(p, nodeUrls, unreachable, seen, required.marked, supported, router);
    if |required.marked| > |supported| {
      return Failure(RequirementsNotSupported);
    }
    return Success(router);
  }
}
