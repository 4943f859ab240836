/**
  Which providers a consumer may use: the valid addresses of the current pairing, the lists cached per addon
  and extensions, and the selection of providers for a relay.

  All methods run under the manager's lock; a nil slice is `None`.
 */
module ProviderSelection {
  import opened Common
  import opened Sorting
  import opened RouterKey

  datatype Endpoint = Endpoint(addons: set<string>, extensions: set<string>)

  datatype Provider = Provider(address: string, endpoints: seq<Endpoint>)

  predicate IsSupportingAddon(p: Provider, addon: string) {
    addon == "" || exists i :: 0 <= i < |p.endpoints| && addon in p.endpoints[i].addons
  }

  predicate HasExtensions(e: Endpoint, extensions: seq<string>) {
    forall x :: x in extensions ==> x in e.extensions
  }

  predicate IsSupportingExtensions(p: Provider, extensions: seq<string>) {
    exists i :: 0 <= i < |p.endpoints| && HasExtensions(p.endpoints[i], extensions)
  }

  predicate Supports(p: Provider, addon: string, extensions: seq<string>) {
    IsSupportingAddon(p, addon) && IsSupportingExtensions(p, extensions)
  }

  /** An endpoint has the addon, unless none is asked for, and one, possibly another, has all the extensions. */
  ghost predicate Offers(p: Provider, addon: string, extensions: seq<string>) {
    && (addon != "" ==> exists e :: e in p.endpoints && addon in e.addons)
    && (exists e :: e in p.endpoints && Names(extensions) <= e.extensions)
  }

  /** The two loops over the endpoints, one for the addon and one for the extensions, find exactly that. */
  lemma SupportsExactly(p: Provider, addon: string, extensions: seq<string>)
    ensures Supports(p, addon, extensions) <==> Offers(p, addon, extensions)
  {
    forall e: Endpoint ensures HasExtensions(e, extensions) <==> Names(extensions) <= e.extensions {}
    if Supports(p, addon, extensions) {
      if addon != "" {
        var i :| 0 <= i < |p.endpoints| && addon in p.endpoints[i].addons;
        assert p.endpoints[i] in p.endpoints;
      }
      var j :| 0 <= j < |p.endpoints| && HasExtensions(p.endpoints[j], extensions);
      assert p.endpoints[j] in p.endpoints;
    }
    if Offers(p, addon, extensions) {
      var e :| e in p.endpoints && Names(extensions) <= e.extensions;
      var j :| 0 <= j < |p.endpoints| && p.endpoints[j] == e;
      assert HasExtensions(p.endpoints[j], extensions);
    }
  }

  /** Addon and extensions need not be on one endpoint: such a provider is picked although none of its urls has both. */
  lemma SupportMayBeSplit(address: string, addon: string, extension: string)
    requires addon != "" && addon != extension
    ensures var p := Provider(address, [Endpoint({addon}, {}), Endpoint({}, {extension})]);
      && Supports(p, addon, [extension])
      && forall e :: e in p.endpoints ==> !(addon in e.addons && extension in e.extensions)
  {
    var p := Provider(address, [Endpoint({addon}, {}), Endpoint({}, {extension})]);
    assert addon in p.endpoints[0].addons && HasExtensions(p.endpoints[1], [extension]);
  }

  type Pairing = map<string, Provider>

  predicate AllPaired(addresses: seq<string>, pairing: Pairing) {
    forall a :: a in addresses ==> a in pairing
  }

  /** The addresses whose providers support the addon and the extensions, in order. */
  function Supporting(addresses: seq<string>, pairing: Pairing, addon: string,
                      extensions: seq<string>): (r: seq<string>)
    requires AllPaired(addresses, pairing)
    ensures forall a :: a in r <==> a in addresses && Supports(pairing[a], addon, extensions)
    ensures Distinct(addresses) ==> Distinct(r)
  {
    if addresses == [] then []
    else
      var n := |addresses| - 1;
      var r := Supporting(addresses[..n], pairing, addon, extensions);
      assert addresses == addresses[..n] + [addresses[n]];
      if Supports(pairing[addresses[n]], addon, extensions) then r + [addresses[n]] else r
  }

  /** The addresses not ignored, in order. */
  function NotIgnored(addresses: seq<string>, ignored: set<string>): (r: seq<string>)
    ensures forall a :: a in r <==> a in addresses && a !in ignored
    ensures Distinct(addresses) ==> Distinct(r)
  {
    if addresses == [] then []
    else
      var n := |addresses| - 1;
      var r := NotIgnored(addresses[..n], ignored);
      assert addresses == addresses[..n] + [addresses[n]];
      if addresses[n] in ignored then r else r + [addresses[n]]
  }

  method GetAllProviders(allAddresses: seq<string>, ignored: set<string>) returns (providers: seq<string>)
    ensures providers == NotIgnored(allAddresses, ignored)
  {
    providers := [];
    for i := 0 to |allAddresses|
      invariant providers == NotIgnored(allAddresses[..i], ignored)
    {
      assert allAddresses[..i + 1][..i] == allAddresses[..i];
      if allAddresses[i] in ignored {
        continue;
      }
      providers := providers + [allAddresses[i]];
    }
    assert allAddresses[..|allAddresses|] == allAddresses;
  }

  predicate AllIgnored(addresses: seq<string>, ignored: set<string>) {
    forall a :: a in addresses ==> a in ignored
  }

  lemma DistinctSize(xs: seq<string>)
    requires Distinct(xs)
    ensures |Names(xs)| == |xs|
  {
    if xs != [] {
      var n := |xs| - 1;
      DistinctSize(xs[..n]);
      assert xs == xs[..n] + [xs[n]];
      assert Names(xs) == Names(xs[..n]) + {xs[n]};
      assert xs[n] !in xs[..n];
    }
  }

  lemma SubsetSize<T>(a: set<T>, b: set<T>)
    requires a <= b
    ensures |a| <= |b| && (|a| == |b| ==> a == b)
  {
    assert b == a + (b - a);
    assert |b| == |a| + |b - a|;
  }

  /** More distinct addresses than ignored providers: some address is not ignored. */
  lemma TooManyToIgnore(addresses: seq<string>, ignored: set<string>)
    requires Distinct(addresses) && |addresses| > |ignored|
    ensures !AllIgnored(addresses, ignored)
  {
    DistinctSize(addresses);
    if AllIgnored(addresses, ignored) {
      SubsetSize(Names(addresses), ignored);
    }
  }

  lemma AllCounted(addresses: seq<string>, ignored: set<string>)
    requires Distinct(addresses)
    ensures |Names(addresses) * ignored| <= |addresses|
    ensures |Names(addresses) * ignored| == |addresses| <==> AllIgnored(addresses, ignored)
  {
    DistinctSize(addresses);
    SubsetSize(Names(addresses) * ignored, Names(addresses));
    if AllIgnored(addresses, ignored) {
      assert Names(addresses) * ignored == Names(addresses);
    } else {
      var a :| a in addresses && a !in ignored;
      assert a in Names(addresses) && a !in Names(addresses) * ignored;
    }
  }

  lemma NextCounted(addresses: seq<string>, i: nat, ignored: set<string>)
    requires Distinct(addresses) && i < |addresses|
    ensures |Names(addresses[..i + 1]) * ignored|
         == |Names(addresses[..i]) * ignored| + if addresses[i] in ignored then 1 else 0
  {
    var before, address := addresses[..i], addresses[i];
    assert addresses[..i + 1] == before + [address];
    assert Names(addresses[..i + 1]) == Names(before) + {address};
    assert address !in before;
    if address in ignored {
      assert Names(addresses[..i + 1]) * ignored == Names(before) * ignored + {address};
    } else {
      assert Names(addresses[..i + 1]) * ignored == Names(before) * ignored;
    }
  }

  /**
    The count that decides whether the pairing list is empty: first only by sizes, then by counting the
    ignored ones among the valid. It says so exactly when all valid addresses are ignored.
   */
  method PairingListIsEmpty(validAddresses: seq<string>, ignored: set<string>) returns (empty: bool)
    requires Distinct(validAddresses)
    ensures empty <==> AllIgnored(validAddresses, ignored)
  {
    if |validAddresses| - |ignored| <= 0 {
      var ignoredLength := 0;
      for i := 0 to |validAddresses|
        invariant ignoredLength == |Names(validAddresses[..i]) * ignored|
      {
        NextCounted(validAddresses, i, ignored);
        if validAddresses[i] in ignored {
          ignoredLength := ignoredLength + 1;
        }
      }
      assert validAddresses[..|validAddresses|] == validAddresses;
      AllCounted(validAddresses, ignored);
      return |validAddresses| - ignoredLength <= 0;
    }
    TooManyToIgnore(validAddresses, ignored);
    return false;
  }

  // ---- The optimizer ------------------------------------------------------------------------------

  /** What the optimizer answers, given the valid addresses and the ignored ones. */
  type Optimizer = (seq<string>, set<string>) -> seq<string>

  function Choose(optimizer: Optimizer, addresses: seq<string>, ignored: set<string>): seq<string> {
    optimizer(addresses, ignored)
  }

  /** It only ever offers valid addresses that are not ignored. */
  ghost predicate Sound(optimizer: Optimizer) {
    forall addresses, ignored, a :: a in Choose(optimizer, addresses, ignored) ==> a in addresses && a !in ignored
  }

  /** It offers something, by name, whenever there is something to offer. */
  ghost predicate Forthcoming(optimizer: Optimizer) {
    forall addresses, ignored :: !AllIgnored(addresses, ignored) && "" !in addresses ==>
      Choose(optimizer, addresses, ignored) != []
  }

  function Offered(optimizer: Optimizer, all: bool, addresses: seq<string>, ignored: set<string>): seq<string> {
    if all then NotIgnored(addresses, ignored) else Choose(optimizer, addresses, ignored)
  }

  datatype Error = PairingListEmpty | EpochMismatch | OlderEpoch | AddressIndexWasNotFound

  predicate DistinctAddresses(pairingList: map<nat, Provider>) {
    forall i, j :: i in pairingList && j in pairingList && i != j ==> pairingList[i].address != pairingList[j].address
  }

  ghost predicate PairingIsListed(pairing: Pairing, pairingAddresses: map<nat, string>) {
    && (forall i :: i in pairingAddresses ==> pairingAddresses[i] in pairing)
    && (forall a :: a in pairing ==> exists i :: i in pairingAddresses && pairingAddresses[i] == a)
    && (forall i, j :: i in pairingAddresses && j in pairingAddresses && i != j ==>
      pairingAddresses[i] != pairingAddresses[j])
  }

  /** A cached list is never empty, and lists valid addresses only. */
  ghost predicate CachedWell(list: Option<seq<string>>, validAddresses: seq<string>) {
    list.Some? ==> list.value != [] && Distinct(list.value) && forall a :: a in list.value ==> a in validAddresses
  }

  ghost predicate CacheIsWell(cache: map<string, Option<seq<string>>>, validAddresses: seq<string>) {
    forall key :: key in cache ==> CachedWell(cache[key], validAddresses)
  }

  function Slice(list: seq<string>): Option<seq<string>> { if list == [] then None else Some(list) }

  // ---- What a cached list was computed for --------------------------------------------------------

  datatype Request = Request(addon: string, extensions: seq<string>)

  function CacheKey(addon: string, extensions: seq<string>): string { Key(extensions + [addon]) }

  ghost predicate AllSupport(addresses: seq<string>, pairing: Pairing, addon: string, extensions: seq<string>) {
    forall a :: a in addresses ==> a in pairing && Supports(pairing[a], addon, extensions)
  }

  /** The list under this key was computed for the request on record, and lists providers that support it. */
  ghost predicate ComputedFor(key: string, list: Option<seq<string>>, origins: map<string, Request>, pairing: Pairing) {
    list.Some? ==>
      && key in origins && CacheKey(origins[key].addon, origins[key].extensions) == key
      && AllSupport(list.value, pairing, origins[key].addon, origins[key].extensions)
  }

  ghost predicate CacheHasOrigins(cache: map<string, Option<seq<string>>>, origins: map<string, Request>,
                                  pairing: Pairing)
  {
    forall key :: key in cache ==> ComputedFor(key, cache[key], origins, pairing)
  }

  ghost predicate CacheOk(cache: map<string, Option<seq<string>>>, origins: map<string, Request>, pairing: Pairing,
                          validAddresses: seq<string>) {
    CacheIsWell(cache, validAddresses) && CacheHasOrigins(cache, origins, pairing)
  }

  /** Caching what was computed for a request keeps the cache in order. */
  lemma CachingKeepsOk(cache: map<string, Option<seq<string>>>, origins: map<string, Request>, pairing: Pairing,
                       validAddresses: seq<string>, list: seq<string>, r: Request)
    requires CacheOk(cache, origins, pairing, validAddresses)
    requires AllSupport(list, pairing, r.addon, r.extensions) && CachedWell(Slice(list), validAddresses)
    ensures var key := CacheKey(r.addon, r.extensions);
      CacheOk(cache[key := Slice(list)], origins[key := r], pairing, validAddresses)
  {
    var key := CacheKey(r.addon, r.extensions);
    var cache', origins' := cache[key := Slice(list)], origins[key := r];
    forall k | k in cache'
      ensures CachedWell(cache'[k], validAddresses) && ComputedFor(k, cache'[k], origins', pairing)
    {
      if k != key {
        assert CachedWell(cache[k], validAddresses) && ComputedFor(k, cache[k], origins, pairing);
      }
    }
  }

  lemma ComputingKeepsOk(cache: map<string, Option<seq<string>>>, origins: map<string, Request>, pairing: Pairing,
                         validAddresses: seq<string>, r: Request)
    requires AllPaired(validAddresses, pairing) && Distinct(validAddresses)
    requires CacheOk(cache, origins, pairing, validAddresses)
    ensures var key := CacheKey(r.addon, r.extensions);
      var list := Slice(Supporting(validAddresses, pairing, r.addon, r.extensions));
      CacheOk(cache[key := list], origins[key := r], pairing, validAddresses)
  {
    CachingKeepsOk(cache, origins, pairing, validAddresses,
                   Supporting(validAddresses, pairing, r.addon, r.extensions), r);
  }

  /** The names a spec uses for addons and for extensions. */
  datatype Vocabulary = Vocabulary(addons: set<string>, extensions: set<string>)

  /** No name is used for both, and none is empty or holds the separator of cache keys. */
  ghost predicate Separate(v: Vocabulary) {
    v.addons !! v.extensions && forall x :: x in v.addons || x in v.extensions ==> Proper(x)
  }

  predicate Speaks(v: Vocabulary, r: Request) {
    (r.addon == "" || r.addon in v.addons) && Names(r.extensions) <= v.extensions
  }

  ghost predicate AllSpeak(v: Vocabulary, origins: map<string, Request>) {
    forall key :: key in origins ==> Speaks(v, origins[key])
  }

  lemma NamesAsked(v: Vocabulary, r: Request)
    requires Separate(v) && Speaks(v, r)
    ensures SeparatorFree(r.extensions + [r.addon])
    ensures Names(r.extensions + [r.addon]) == Names(r.extensions) + {r.addon}
  {
    NamesOfSum(r.extensions, [r.addon]);
    assert Names([r.addon]) == {r.addon};
    forall x | x in r.extensions + [r.addon] ensures SEP !in x {
      assert x in r.extensions ==> x in Names(r.extensions);
    }
  }

  /** Within one vocabulary a cache key tells addon and extensions apart. */
  lemma SameKeySameRequest(v: Vocabulary, a: Request, b: Request)
    requires Separate(v) && Speaks(v, a) && Speaks(v, b)
    requires CacheKey(a.addon, a.extensions) == CacheKey(b.addon, b.extensions)
    ensures a.addon == b.addon && Names(a.extensions) == Names(b.extensions)
  {
    NamesAsked(v, a);
    NamesAsked(v, b);
    SameKeyExactly(a.extensions + [a.addon], b.extensions + [b.addon]);
    SplitNames(v, a, b);
  }

  lemma SplitNames(v: Vocabulary, a: Request, b: Request)
    requires Separate(v) && Speaks(v, a) && Speaks(v, b)
    requires var x, y := Names(a.extensions) + {a.addon}, Names(b.extensions) + {b.addon};
      x == y || (Blank(x) && Blank(y))
    ensures a.addon == b.addon && Names(a.extensions) == Names(b.extensions)
  {
    var x, y := Names(a.extensions) + {a.addon}, Names(b.extensions) + {b.addon};
    assert a.addon in x && b.addon in y;
    assert x == y;
    assert a.addon in y && b.addon in x;
    assert Names(a.extensions) == x - {a.addon} && Names(b.extensions) == y - {b.addon};
  }

  lemma SupportDependsOnNames(p: Provider, addon: string, a: seq<string>, b: seq<string>)
    requires Names(a) == Names(b)
    ensures Supports(p, addon, a) <==> Supports(p, addon, b)
  {
    SameNames(a, b);
    forall e ensures HasExtensions(e, a) <==> HasExtensions(e, b) {}
  }

  /** An addon and an extension that swap their names share a key: that is why one vocabulary must keep them apart. */
  lemma SwappedNamesCollide(a: string, b: string)
    ensures CacheKey(a, [b]) == CacheKey(b, [a])
  {
    NamesOfSum([b], [a]);
    NamesOfSum([a], [b]);
    SameNamesSameKey([b] + [a], [a] + [b]);
  }

  /** Then a list cached for one request need not support the other. */
  lemma SwappedNamesDiffer(address: string, a: string, b: string)
    requires a != b && b != ""
    ensures var p := Provider(address, [Endpoint({a}, {b})]);
      Supports(p, a, [b]) && !Supports(p, b, [a])
  {
    var p := Provider(address, [Endpoint({a}, {b})]);
    assert HasExtensions(p.endpoints[0], [b]) && a in p.endpoints[0].addons;
  }

  // ---- The manager --------------------------------------------------------------------------------

  class ConsumerSessionManager {
    var pairing: Pairing
    var currentEpoch: nat
    var numberOfResets: nat
    var pairingAddresses: map<nat, string>
    var validAddresses: seq<string>
    var addonAddresses: map<string, Option<seq<string>>>
    // for each key, the request its list was last computed for
    ghost var origins: map<string, Request>

    constructor ()
      ensures Valid() && pairing == map[] && validAddresses == [] && origins == map[]
    {
      pairing, currentEpoch, numberOfResets := map[], 0, 0;
      pairingAddresses, validAddresses, addonAddresses, origins := map[], [], map[], map[];
    }

    ghost predicate Valid()
      reads this
    {
      && PairingIsListed(pairing, pairingAddresses)
      && AllPaired(validAddresses, pairing) && Distinct(validAddresses)
      && CacheOk(addonAddresses, origins, pairing, validAddresses)
    }

    /** This request and all those with a cached list use their names within one vocabulary. */
    ghost predicate Disciplined(addon: string, extensions: seq<string>)
      reads this
    {
      exists v :: Separate(v) && AllSpeak(v, origins) && Speaks(v, Request(addon, extensions))
    }

    predicate IsCached(addon: string, extensions: seq<string>)
      reads this
    {
      var key := CacheKey(addon, extensions);
      key in addonAddresses && addonAddresses[key].Some?
    }

    /** The addresses that a relay with this addon and these extensions may use. */
    ghost function Usable(addon: string, extensions: seq<string>): (addresses: seq<string>)
      requires Valid()
      reads this
      ensures Distinct(addresses) && forall a :: a in addresses ==> a in validAddresses
    {
      if IsCached(addon, extensions) then addonAddresses[CacheKey(addon, extensions)].value
      else Supporting(validAddresses, pairing, addon, extensions)
    }

    /** Cached or not, what is usable supports what is asked for. */
    lemma UsableSupports(addon: string, extensions: seq<string>)
      requires Valid() && Disciplined(addon, extensions)
      ensures AllSupport(Usable(addon, extensions), pairing, addon, extensions)
    {
      if IsCached(addon, extensions) {
        var key := CacheKey(addon, extensions);
        var v :| Separate(v) && AllSpeak(v, origins) && Speaks(v, Request(addon, extensions));
        assert ComputedFor(key, addonAddresses[key], origins, pairing);
        SameKeySameRequest(v, origins[key], Request(addon, extensions));
        forall a | a in addonAddresses[key].value ensures Supports(pairing[a], addon, extensions) {
          SupportDependsOnNames(pairing[a], addon, origins[key].extensions, extensions);
        }
      }
    }

    method RemoveAddonAddresses(addon: string, extensions: seq<string>)
      modifies this`addonAddresses
      ensures addon == "" && extensions == [] ==> addonAddresses == map[]
      ensures !(addon == "" && extensions == []) ==>
        addonAddresses == old(addonAddresses)[CacheKey(addon, extensions) := Some([])]
    {
      if addon == "" && |extensions| == 0 {
        addonAddresses := map[];
      } else {
        var routerKey := NewRouterKey(extensions + [addon]);
        addonAddresses := addonAddresses[routerKey := Some([])];
      }
    }

    method CalculateAddonValidAddresses(addon: string, extensions: seq<string>) returns (addresses: seq<string>)
      requires AllPaired(validAddresses, pairing)
      ensures addresses == Supporting(validAddresses, pairing, addon, extensions)
    {
      addresses := [];
      for i := 0 to |validAddresses|
        invariant addresses == Supporting(validAddresses[..i], pairing, addon, extensions)
      {
        assert validAddresses[..i + 1][..i] == validAddresses[..i];
        var providerAddress := validAddresses[i];
        assert providerAddress in validAddresses;
        var providerEntry := pairing[providerAddress];
        if IsSupportingAddon(providerEntry, addon) && IsSupportingExtensions(providerEntry, extensions) {
          addresses := addresses + [providerAddress];
        }
      }
      assert validAddresses[..|validAddresses|] == validAddresses;
    }

    method GetValidAddresses(addon: string, extensions: seq<string>) returns (addresses: seq<string>)
      requires Valid()
      ensures addresses == Usable(addon, extensions)
      ensures Disciplined(addon, extensions) ==> AllSupport(addresses, pairing, addon, extensions)
    {
      if Disciplined(addon, extensions) {
        UsableSupports(addon, extensions);
      }
      var routerKey := NewRouterKey(extensions + [addon]);
      if routerKey !in addonAddresses || addonAddresses[routerKey] == None {
        addresses := CalculateAddonValidAddresses(addon, extensions);
        return;
      }
      return addonAddresses[routerKey].value;
    }

    /** Computes the list anew and caches it. */
    method ComputeCache(addon: string, extensions: seq<string>) returns (addresses: seq<string>)
      requires Valid()
      modifies this`addonAddresses, this`origins
      ensures Valid()
      ensures addresses == Supporting(validAddresses, pairing, addon, extensions)
      ensures var key := CacheKey(addon, extensions);
        var before := if addon == "" && extensions == [] then map[] else old(addonAddresses);
        && addonAddresses == before[key := Slice(addresses)]
        && origins == old(origins)[key := Request(addon, extensions)]
    {
      ghost var before := if addon == "" && extensions == [] then map[] else addonAddresses;
      ComputingKeepsOk(before, origins, pairing, validAddresses, Request(addon, extensions));
      ghost var list := Slice(Supporting(validAddresses, pairing, addon, extensions));
      RemoveAddonAddresses(addon, extensions);
      addresses := CalculateAddonValidAddresses(addon, extensions);
      var routerKey := NewRouterKey(extensions + [addon]);
      Overwritten(before, addonAddresses, routerKey, Some([]), list);
      addonAddresses := addonAddresses[routerKey := Slice(addresses)];
      origins := origins[routerKey := Request(addon, extensions)];
    }

    method CacheAddonAddresses(addon: string, extensions: seq<string>) returns (addresses: seq<string>)
      requires Valid()
      modifies this`addonAddresses, this`origins
      ensures Valid() && addresses == old(Usable(addon, extensions)) == Usable(addon, extensions)
      ensures origins == old(origins) ||
        origins == old(origins)[CacheKey(addon, extensions) := Request(addon, extensions)]
    {
      var routerKey := NewRouterKey(extensions + [addon]);
      if routerKey !in addonAddresses || addonAddresses[routerKey] == None {
        addresses := ComputeCache(addon, extensions);
        return;
      }
      return addonAddresses[routerKey].value;
    }

    /** All addresses of the pairing, in some order. */
    method AllPairingAddresses() returns (addresses: seq<string>)
      requires PairingIsListed(pairing, pairingAddresses)
      ensures Distinct(addresses) && forall a :: a in addresses <==> a in pairing
    {
      addresses := [];
      var left := pairingAddresses.Keys;
      while left != {}
        invariant left <= pairingAddresses.Keys
        invariant Distinct(addresses)
        invariant forall a :: a in addresses <==> ListedOutside(pairingAddresses, left, a)
        decreases left
      {
        var idx := PickIndex(left);
        assert !ListedOutside(pairingAddresses, left, pairingAddresses[idx]);
        addresses := addresses + [pairingAddresses[idx]];
        left := left - {idx};
      }
    }

    /** Adds the providers of the pairing that support the addon and the extensions, where they are missing. */
    method AddSupporting(addon: string, extensions: seq<string>)
      requires Valid()
      modifies this`validAddresses
      ensures Valid()
      ensures forall a :: a in validAddresses <==>
        a in old(validAddresses) || (a in pairing && Supports(pairing[a], addon, extensions))
    {
      ghost var before := validAddresses;
      var left := pairingAddresses.Keys;
      while left != {}
        invariant left <= pairingAddresses.Keys
        invariant AllPaired(validAddresses, pairing) && Distinct(validAddresses)
        invariant forall a :: a in validAddresses <==>
          || a in before
          || (ListedOutside(pairingAddresses, left, a) && a in pairing && Supports(pairing[a], addon, extensions))
        decreases left
      {
        var idx := PickIndex(left);
        var provider := pairingAddresses[idx];
        if IsSupportingAddon(pairing[provider], addon) && IsSupportingExtensions(pairing[provider], extensions) {
          if provider !in validAddresses {
            validAddresses := validAddresses + [provider];
          }
        }
        left := left - {idx};
      }
      forall a | a in pairing ensures ListedOutside(pairingAddresses, {}, a) {}
    }

    method SetValidAddressesToDefaultValue(addon: string, extensions: seq<string>)
      requires Valid()
      modifies this`validAddresses, this`addonAddresses, this`origins
      ensures Valid()
      ensures origins == old(origins) ||
        origins == old(origins)[CacheKey(addon, extensions) := Request(addon, extensions)]
      ensures addon == "" && extensions == [] ==>
        (forall a :: a in validAddresses <==> a in pairing) && addonAddresses == old(addonAddresses)
      ensures !(addon == "" && extensions == []) ==>
        && (forall a :: a in validAddresses <==>
          a in old(validAddresses) || (a in pairing && Supports(pairing[a], addon, extensions)))
        && var list := Slice(Supporting(validAddresses, pairing, addon, extensions));
           addonAddresses == old(addonAddresses)[CacheKey(addon, extensions) := list]
    {
      if addon == "" && |extensions| == 0 {
        validAddresses := AllPairingAddresses();
      } else {
        AddSupporting(addon, extensions);
        var _ := ComputeCache(addon, extensions);
      }
    }

    /** If no address is usable, everything that supports the addon and the extensions becomes usable again. */
    method ResetValidAddresses(addon: string, extensions: seq<string>) returns (resets: nat)
      requires Valid()
      modifies this`validAddresses, this`addonAddresses, this`numberOfResets, this`origins
      ensures origins == old(origins) ||
        origins == old(origins)[CacheKey(addon, extensions) := Request(addon, extensions)]
      ensures Valid() && resets == numberOfResets
      ensures old(Usable(addon, extensions)) != [] ==>
        && numberOfResets == old(numberOfResets)
        && validAddresses == old(validAddresses) && addonAddresses == old(addonAddresses)
      ensures old(Usable(addon, extensions)) == [] ==>
        && numberOfResets == old(numberOfResets) + 1
        && forall a :: a in Usable(addon, extensions) <==> a in pairing && Supports(pairing[a], addon, extensions)
    {
      var addresses := GetValidAddresses(addon, extensions);
      if |addresses| == 0 {
        SetValidAddressesToDefaultValue(addon, extensions);
        numberOfResets := numberOfResets + 1;
      }
      return numberOfResets;
    }

    /** Afterwards some address is usable if any provider of the pairing supports the addon and the extensions. */
    method ValidatePairingListNotEmpty(addon: string, extensions: seq<string>) returns (resets: nat)
      requires Valid()
      modifies this`validAddresses, this`addonAddresses, this`numberOfResets, this`origins
      ensures origins == old(origins) ||
        origins == old(origins)[CacheKey(addon, extensions) := Request(addon, extensions)]
      ensures Valid()
      ensures numberOfResets == old(numberOfResets) + if old(Usable(addon, extensions)) == [] then 1 else 0
      ensures resets == numberOfResets
      ensures forall a :: a in pairing && Supports(pairing[a], addon, extensions) ==> Usable(addon, extensions) != []
    {
      resets := numberOfResets;
      var addresses := CacheAddonAddresses(addon, extensions);
      if |addresses| == 0 {
        resets := ResetValidAddresses(addon, extensions);
      }
    }

    method RemoveAddressFromValidAddresses(address: string) returns (err: Option<Error>)
      requires Valid()
      modifies this`validAddresses, this`addonAddresses
      ensures Valid()
      ensures err == (if address in old(validAddresses) then None else Some(AddressIndexWasNotFound))
      ensures forall a :: a in validAddresses <==> a in old(validAddresses) && a != address
      ensures err.None? ==> addonAddresses == map[]
      ensures err.Some? ==> addonAddresses == old(addonAddresses)
    {
      ghost var before, cached := validAddresses, addonAddresses;
      for idx := 0 to |validAddresses|
        invariant validAddresses == before && addonAddresses == cached
        invariant address !in validAddresses[..idx]
      {
        if validAddresses[idx] == address {
          validAddresses := validAddresses[..idx] + validAddresses[idx + 1..];
          assert before == before[..idx] + [address] + before[idx + 1..];
          RemoveAddonAddresses("", []);
          return None;
        }
      }
      return Some(AddressIndexWasNotFound);
    }

    method BlockProvider(address: string, sessionEpoch: nat) returns (err: Option<Error>)
      requires Valid()
      modifies this`validAddresses, this`addonAddresses
      ensures Valid()
      ensures err == (if sessionEpoch == currentEpoch then None else Some(EpochMismatch))
      ensures err.Some? ==> validAddresses == old(validAddresses) && addonAddresses == old(addonAddresses)
      ensures err.None? ==> forall a :: a in validAddresses <==> a in old(validAddresses) && a != address
    {
      if sessionEpoch != currentEpoch {
        return Some(EpochMismatch);
      }
      var _ := RemoveAddressFromValidAddresses(address);
      return None;
    }

    method UpdateAllProviders(epoch: nat, pairingList: map<nat, Provider>) returns (err: Option<Error>)
      requires Valid() && DistinctAddresses(pairingList)
      modifies this
      ensures Valid()
      ensures err == (if epoch <= old(currentEpoch) then Some(OlderEpoch) else None)
      ensures err.Some? ==>
        && pairing == old(pairing) && validAddresses == old(validAddresses) && addonAddresses == old(addonAddresses)
        && currentEpoch == old(currentEpoch)
      ensures err.None? ==>
        && currentEpoch == epoch && numberOfResets == 0 && addonAddresses == map[] && origins == map[]
        && (forall i :: i in pairingList ==>
          pairingList[i].address in pairing && pairing[pairingList[i].address] == pairingList[i])
        && (forall a :: a in pairing ==> exists i :: i in pairingList && pairingList[i].address == a)
        && (forall a :: a in validAddresses <==> a in pairing)
    {
      if epoch <= currentEpoch {
        return Some(OlderEpoch);
      }
      currentEpoch := epoch;
      numberOfResets := 0;
      RemoveAddonAddresses("", []);
      origins := map[];
      pairing, pairingAddresses := PairingOf(pairingList);
      validAddresses := AllPairingAddresses();
      return None;
    }

    method GetValidProviderAddresses(ignored: set<string>, addon: string, extensions: seq<string>, all: bool,
                                     optimizer: Optimizer)
      returns (addresses: Result<seq<string>, Error>)
      requires Valid()
      ensures var offered := Offered(optimizer, all, Usable(addon, extensions), ignored);
        addresses == if AllIgnored(Usable(addon, extensions), ignored) || offered == [] || offered[0] == ""
                     then Failure(PairingListEmpty) else Success(offered)
    {
      var valid := GetValidAddresses(addon, extensions);
      var empty := PairingListIsEmpty(valid, ignored);
      if empty {
        return Failure(PairingListEmpty);
      }
      var providers;
      if all {
        providers := GetAllProviders(valid, ignored);
      } else {
        providers := Choose(optimizer, valid, ignored);
      }
      if |providers| == 0 || providers[0] == "" {
        return Failure(PairingListEmpty);
      }
      return Success(providers);
    }

    /** One pass over the addresses offered; it stops as soon as enough are picked. */
    method TryProviders(addresses: seq<string>, fits: set<string>, wanted: nat, tried0: set<string>,
                        picked0: SessionWithProviderMap, ghost usable: seq<string>, ghost start: set<string>)
      returns (picked: SessionWithProviderMap, tried: set<string>, enough: bool)
      requires Valid() && forall a :: a in addresses ==> a in usable && a !in start
      requires forall a :: a in usable ==> a in validAddresses
      requires Searched(picked0, tried0, usable, start, fits, pairing) && |picked0| < wanted
      ensures Searched(picked, tried, usable, start, fits, pairing)
      ensures tried0 <= tried
      ensures enough ==> |picked| == wanted && picked != map[]
      ensures !enough ==> |picked| < wanted && forall a :: a in addresses ==> a in tried
    {
      picked, tried := picked0, tried0;
      for i := 0 to |addresses|
        invariant Searched(picked, tried, usable, start, fits, pairing)
        invariant tried0 <= tried && |picked| < wanted && forall a :: a in addresses[..i] ==> a in tried
      {
        var providerAddress := addresses[i];
        assert providerAddress in addresses && addresses[..i + 1] == addresses[..i] + [providerAddress];
        // the source gives up here if the address is no key of the pairing
        var consumerSessionsWithProvider := pairing[providerAddress];
        ghost var before := tried;
        tried := tried + {providerAddress};
        if providerAddress !in fits {
          Passed(picked, before, usable, start, fits, pairing, providerAddress);
          continue;
        }
        Picked(picked, before, usable, start, fits, pairing, providerAddress);
        picked := picked[providerAddress := consumerSessionsWithProvider];
        if |picked| == wanted {
          assert providerAddress in picked;
          return picked, tried, true;
        }
      }
      assert addresses[..|addresses|] == addresses;
      return picked, tried, false;
    }

    /** The retry loop: as long as providers are offered, tries them; `start` are those ignored from the outset. */
    method SearchProviders(start: set<string>, fits: set<string>, addon: string, extensions: seq<string>, all: bool,
                           optimizer: Optimizer)
      returns (result: Result<SessionWithProviderMap, Error>, tried: set<string>)
      requires Valid() && Sound(optimizer)
      ensures SearchEnds(result, tried, Usable(addon, extensions), start, fits, pairing,
                         |Offered(optimizer, all, Usable(addon, extensions), start)|,
                         Dependable(optimizer, all, Usable(addon, extensions)))
    {
      ghost var usable := Usable(addon, extensions);
      ghost var dependable := Dependable(optimizer, all, usable);
      var picked: SessionWithProviderMap := map[];
      tried := start;
      OffersUsable(optimizer, all, usable, tried);
      var addresses := GetValidProviderAddresses(tried, addon, extensions, all, optimizer);
      if addresses.Failure? {
        NothingOffered(usable, start, fits, pairing, |Offered(optimizer, all, usable, start)|, dependable);
        return Failure(addresses.error), tried;
      }
      var wanted := |addresses.value|;
      while addresses.Success?
        invariant Searched(picked, tried, usable, start, fits, pairing) && |picked| < wanted
        invariant addresses.Success? ==> addresses.value == Offered(optimizer, all, usable, tried) != []
        invariant addresses.Failure? ==>
          addresses.error == PairingListEmpty && (dependable ==> AllIgnored(usable, tried))
        decreases Names(usable) - tried, addresses.Success?
      {
        OffersUsable(optimizer, all, usable, tried);
        assert addresses.value[0] in addresses.value;
        assert addresses.value[0] in Names(usable) - tried;
        var enough;
        picked, tried, enough := TryProviders(addresses.value, fits, wanted, tried, picked, usable, start);
        if enough {
          EnoughPicked(picked, tried, usable, start, fits, pairing, wanted, dependable);
          return Success(picked), tried;
        }
        OffersUsable(optimizer, all, usable, tried);
        addresses := GetValidProviderAddresses(tried, addon, extensions, all, optimizer);
      }
      NoneLeft(picked, tried, usable, start, fits, pairing, wanted, dependable);
      if picked != map[] {
        return Success(picked), tried;
      }
      return Failure(addresses.error), tried;
    }

    /**
      Picks providers for a relay. `fits` are those whose compute units suffice. It never meets an address
      without a provider, and it stops; it fails exactly when no usable provider is left that fits, provided
      the optimizer offers something as long as there is something to offer; and whoever it picks supports the
      addon and the extensions.
     */
    method GetValidConsumerSessionsWithProvider(ignored: IgnoredProviders, fits: set<string>, addon: string,
                                                extensions: seq<string>, all: bool, optimizer: Optimizer)
      returns (result: Result<SessionWithProviderMap, Error>, ignored': IgnoredProviders)
      requires Valid() && Sound(optimizer)
      ensures var start := if ignored.currentEpoch < currentEpoch then {} else ignored.providers;
        var usable := Usable(addon, extensions);
        && SearchEnds(result, ignored'.providers, usable, start, fits, pairing,
                      |Offered(optimizer, all, usable, start)|, Dependable(optimizer, all, usable))
        && (result.Success? && all && "" !in usable ==> PicksAll(result.value, usable, start, fits))
        && ignored'.currentEpoch == Max(ignored.currentEpoch, currentEpoch)
      ensures result.Success? && Disciplined(addon, extensions) ==>
        forall a :: a in result.value ==> Offers(result.value[a], addon, extensions)
    {
      ignored' := if ignored.currentEpoch < currentEpoch then IgnoredProviders({}, currentEpoch) else ignored;
      var tried;
      result, tried := SearchProviders(ignored'.providers, fits, addon, extensions, all, optimizer);
      if result.Success? && |result.value| == |NotIgnored(Usable(addon, extensions), ignored'.providers)| {
        EnoughIsAll(result.value, Usable(addon, extensions), ignored'.providers, fits);
      }
      if result.Success? && Disciplined(addon, extensions) {
        UsableSupports(addon, extensions);
        forall a | a in result.value ensures Supports(result.value[a], addon, extensions) {}
        forall a | a in result.value ensures Offers(result.value[a], addon, extensions) {
          SupportsExactly(result.value[a], addon, extensions);
        }
      }
      ignored' := ignored'.(providers := tried);
    }
  }

  lemma Overwritten<K, V>(before: map<K, V>, removed: map<K, V>, key: K, empty: V, value: V)
    requires removed == before || removed == before[key := empty]
    ensures removed[key := value] == before[key := value]
  {
  }

  /** Every usable provider that fits, and was not ignored at the start, is picked. */
  ghost predicate PicksAll(picked: SessionWithProviderMap, usable: seq<string>, start: set<string>, fits: set<string>) {
    forall a :: a in usable && a in fits && a !in start ==> a in picked
  }

  /**
    How the search ends, when `offered` providers were offered at first: never with more than those, and with fewer
    only if no more can be had; with none exactly if there was none to be had.
   */
  ghost predicate SearchEnds(result: Result<SessionWithProviderMap, Error>, tried: set<string>, usable: seq<string>,
                             start: set<string>, fits: set<string>, pairing: Pairing, offered: nat, dependable: bool)
  {
    var picked := if result.Success? then result.value else map[];
    && Searched(picked, tried, usable, start, fits, pairing) && |picked| <= offered
    && (result.Success? ==> picked != map[]) && (result.Failure? ==> result.error == PairingListEmpty)
    && (dependable ==> (result.Failure? <==> NoneFits(usable, start, fits)))
    && (dependable ==> |picked| == offered || PicksAll(picked, usable, start, fits))
  }

  predicate NoneFits(usable: seq<string>, start: set<string>, fits: set<string>) {
    forall a :: a in usable && a in fits ==> a in start
  }

  lemma NothingOffered(usable: seq<string>, start: set<string>, fits: set<string>, pairing: Pairing, offered: nat,
                       dependable: bool)
    requires dependable ==> AllIgnored(usable, start)
    ensures SearchEnds(Failure(PairingListEmpty), start, usable, start, fits, pairing, offered, dependable)
  {}

  lemma EnoughPicked(picked: SessionWithProviderMap, tried: set<string>, usable: seq<string>, start: set<string>,
                     fits: set<string>, pairing: Pairing, offered: nat, dependable: bool)
    requires Searched(picked, tried, usable, start, fits, pairing) && |picked| == offered && picked != map[]
    ensures SearchEnds(Success(picked), tried, usable, start, fits, pairing, offered, dependable)
  {
    var a :| a in picked;
    assert a in usable && a in fits && a !in start;
  }

  lemma NoneLeft(picked: SessionWithProviderMap, tried: set<string>, usable: seq<string>, start: set<string>,
                 fits: set<string>, pairing: Pairing, offered: nat, dependable: bool)
    requires Searched(picked, tried, usable, start, fits, pairing) && |picked| < offered
    requires dependable ==> AllIgnored(usable, tried)
    ensures SearchEnds(if picked != map[] then Success(picked) else Failure(PairingListEmpty), tried, usable, start,
                       fits, pairing, offered, dependable)
  {
    if picked != map[] {
      var a :| a in picked;
      assert a in usable && a in fits && a !in start;
    }
  }

  lemma Passed(picked: SessionWithProviderMap, tried: set<string>, usable: seq<string>, start: set<string>,
               fits: set<string>, pairing: Pairing, a: string)
    requires Searched(picked, tried, usable, start, fits, pairing) && a in usable && a !in fits
    ensures Searched(picked, tried + {a}, usable, start, fits, pairing)
  {}

  lemma Picked(picked: SessionWithProviderMap, tried: set<string>, usable: seq<string>, start: set<string>,
               fits: set<string>, pairing: Pairing, a: string)
    requires Searched(picked, tried, usable, start, fits, pairing)
    requires a in usable && a !in start && a in fits && a in pairing
    ensures Searched(picked[a := pairing[a]], tried + {a}, usable, start, fits, pairing)
    ensures |picked[a := pairing[a]]| <= |picked| + 1
  {
    OneMoreKey(picked, a, pairing[a]);
  }

  lemma OneMoreKey<K, V>(m: map<K, V>, key: K, value: V)
    ensures |m[key := value]| <= |m| + 1
  {
    var more := m[key := value];
    assert more.Keys == m.Keys + {key};
    SubsetSize(more.Keys, m.Keys + {key});
    if key in m {
      assert more.Keys == m.Keys;
    } else {
      assert |m.Keys + {key}| == |m.Keys| + 1;
    }
  }

  /** As many picked as there are to offer: then all that are offered are picked. */
  lemma EnoughIsAll(picked: SessionWithProviderMap, usable: seq<string>, start: set<string>, fits: set<string>)
    requires Distinct(usable) && |picked| == |NotIgnored(usable, start)|
    requires forall a :: a in picked ==> a in usable && a !in start
    ensures PicksAll(picked, usable, start, fits)
  {
    var offered := NotIgnored(usable, start);
    DistinctSize(offered);
    SubsetSize(picked.Keys, Names(offered));
    forall a | a in usable && a in fits && a !in start ensures a in picked {
      assert a in offered;
      assert a in Names(offered);
    }
  }

  /** The optimizer, or the list of all providers, offers something whenever an address is left. */
  ghost predicate Dependable(optimizer: Optimizer, all: bool, usable: seq<string>) {
    "" !in usable && (all || Forthcoming(optimizer))
  }

  lemma OffersUsable(optimizer: Optimizer, all: bool, usable: seq<string>, ignored: set<string>)
    requires Sound(optimizer)
    ensures forall a :: a in Offered(optimizer, all, usable, ignored) ==> a in usable && a !in ignored
    ensures Dependable(optimizer, all, usable) && !AllIgnored(usable, ignored) ==>
      Offered(optimizer, all, usable, ignored) != [] && Offered(optimizer, all, usable, ignored)[0] != ""
  {
    var offered := Offered(optimizer, all, usable, ignored);
    if Dependable(optimizer, all, usable) && !AllIgnored(usable, ignored) {
      var a :| a in usable && a !in ignored;
      assert all ==> a in offered;
      assert offered[0] in offered;
    }
  }

  /** Providers to ignore, and the epoch they were chosen in. */
  datatype IgnoredProviders = IgnoredProviders(providers: set<string>, currentEpoch: nat)

  type SessionWithProviderMap = map<string, Provider>

  /**
    Where the search stands: what it picked and what it tried. Picked are usable providers, not ignored at the
    start, whose compute units suffice; every such provider that was tried has been picked.
   */
  ghost predicate Searched(picked: SessionWithProviderMap, tried: set<string>, usable: seq<string>, start: set<string>,
                           fits: set<string>, pairing: Pairing) {
    && start <= tried && (forall a :: a in tried ==> a in start || a in usable)
    && (forall a :: a in picked ==>
      a in usable && a !in start && a in fits && a in tried && a in pairing && picked[a] == pairing[a])
    && (forall a :: a in tried && a !in start && a in fits ==> a in picked)
  }

  predicate ListedOutside(pairingAddresses: map<nat, string>, left: set<nat>, a: string) {
    exists i :: i in pairingAddresses && i !in left && pairingAddresses[i] == a
  }

  /** The pairing by address, and the addresses by index. */
  method PairingOf(pairingList: map<nat, Provider>) returns (pairing: Pairing, pairingAddresses: map<nat, string>)
    requires DistinctAddresses(pairingList)
    ensures PairingIsListed(pairing, pairingAddresses)
    ensures forall i :: i in pairingList ==>
      pairingList[i].address in pairing && pairing[pairingList[i].address] == pairingList[i]
    ensures forall a :: a in pairing ==> exists i :: i in pairingList && pairingList[i].address == a
  {
    pairing, pairingAddresses := map[], map[];
    var left := pairingList.Keys;
    while left != {}
      invariant left <= pairingList.Keys
      invariant pairingAddresses.Keys == pairingList.Keys - left
      invariant forall i :: i in pairingAddresses ==> pairingAddresses[i] == pairingList[i].address
      invariant forall i :: i in pairingList && i !in left ==>
        pairingList[i].address in pairing && pairing[pairingList[i].address] == pairingList[i]
      invariant forall a :: a in pairing ==> AddressOutside(pairingList, left, a)
      decreases left
    {
      var idx := PickIndex(left);
      var provider := pairingList[idx];
      pairingAddresses := pairingAddresses[idx := provider.address];
      pairing := pairing[provider.address := provider];
      forall a | AddressOutside(pairingList, left, a) || a == provider.address
        ensures AddressOutside(pairingList, left - {idx}, a)
      {}
      left := left - {idx};
    }
    forall a | a in pairing
      ensures exists i :: i in pairingList && pairingList[i].address == a
      ensures exists i :: i in pairingAddresses && pairingAddresses[i] == a
    {
      assert AddressOutside(pairingList, {}, a);
      var i :| i in pairingList && pairingList[i].address == a;
      assert i in pairingAddresses;
    }
  }

  predicate AddressOutside(pairingList: map<nat, Provider>, left: set<nat>, a: string) {
    exists i :: i in pairingList && i !in left && pairingList[i].address == a
  }

  /** Go's iteration order over a map is unspecified. */
  method PickIndex(left: set<nat>) returns (i: nat)
    requires left != {}
    ensures i in left
  {
    SomeElement(left);
    i :| i in left;
  }
}
