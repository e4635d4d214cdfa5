/** Which zone a loadbalancer belongs to, and under which record name (dnsController.go). */
module Matching {
  import opened Wrappers
  import opened Strings
  import opened LoadbalancerLists

  /** The first listed zone whose name the loadbalancer's name contains. */
  function FirstMatch(name: string, zones: seq<string>): Option<string> {
    if zones == [] then None
    else if Contains(name, zones[0]) then Some(zones[0])
    else FirstMatch(name, zones[1..])
  }

  /** The zones some loadbalancer belongs to. */
  function Selected(lbs: seq<Loadbalancer>, zones: seq<string>): set<string> {
    set lb | lb in lbs && FirstMatch(lb.name, zones).Some? :: FirstMatch(lb.name, zones).value
  }

  /** The loadbalancers that belong to `zone`, in list order. */
  function Bucket(lbs: seq<Loadbalancer>, zones: seq<string>, zone: string): seq<Loadbalancer> {
    if lbs == [] then []
    else
      var n := |lbs| - 1;
      var init := Bucket(lbs[..n], zones, zone);
      if FirstMatch(lbs[n].name, zones) == Some(zone) then init + [lbs[n]] else init
  }

  predicate ByLengthDesc(zones: seq<string>) {
    forall i, j :: 0 <= i < j < |zones| ==> |zones[i]| >= |zones[j]|
  }

  function NameSet(zones: seq<string>): set<string> {
    set z | z in zones
  }

  /** A longest name among `keys` that `name` contains. */
  ghost predicate IsLongestMatch(name: string, keys: set<string>, zone: string) {
    && zone in keys
    && Contains(name, zone)
    && (forall z :: z in keys && Contains(name, z) ==> |z| <= |zone|)
  }

  lemma {:induction false} FirstMatchIsListed(name: string, zones: seq<string>)
    ensures var m := FirstMatch(name, zones);
            && (m.Some? ==> m.value in zones && Contains(name, m.value))
            && (m.None? ==> forall z :: z in zones ==> !Contains(name, z))
  {
    if zones != [] && !Contains(name, zones[0]) {
      FirstMatchIsListed(name, zones[1..]);
      assert forall z :: z in zones ==> z == zones[0] || z in zones[1..];
    }
  }

  /** On the sorted list the first match is a longest one. */
  lemma {:induction false} FirstMatchIsLongest(name: string, zones: seq<string>)
    requires ByLengthDesc(zones) && FirstMatch(name, zones).Some?
    ensures IsLongestMatch(name, NameSet(zones), FirstMatch(name, zones).value)
  {
    FirstMatchIsListed(name, zones);
    if Contains(name, zones[0]) {
      forall z | z in zones ensures |z| <= |zones[0]| {
        var i :| 0 <= i < |zones| && zones[i] == z;
        assert i == 0 || |zones[0]| >= |zones[i]|;
      }
    } else {
      FirstMatchIsLongest(name, zones[1..]);
      assert forall z :: z in zones ==> z == zones[0] || z in zones[1..];
    }
  }

  /** Every occurrence of a loadbalancer lands in exactly the bucket of its match; none is lost. */
  lemma {:induction false} BucketPartition(lbs: seq<Loadbalancer>, zones: seq<string>, zone: string, lb: Loadbalancer)
    ensures multiset(Bucket(lbs, zones, zone))[lb]
         == if FirstMatch(lb.name, zones) == Some(zone) then multiset(lbs)[lb] else 0
  {
    if lbs != [] {
      var n := |lbs| - 1;
      BucketPartition(lbs[..n], zones, zone, lb);
      assert lbs == lbs[..n] + [lbs[n]];
    }
  }

  lemma BucketMembers(lbs: seq<Loadbalancer>, zones: seq<string>, zone: string)
    ensures forall lb :: lb in Bucket(lbs, zones, zone) <==> lb in lbs && FirstMatch(lb.name, zones) == Some(zone)
  {
    forall lb ensures lb in Bucket(lbs, zones, zone) <==> lb in lbs && FirstMatch(lb.name, zones) == Some(zone) {
      BucketPartition(lbs, zones, zone, lb);
      assert lb in Bucket(lbs, zones, zone) <==> multiset(Bucket(lbs, zones, zone))[lb] > 0;
      assert lb in lbs <==> multiset(lbs)[lb] > 0;
    }
  }

  /** A zone has a bucket exactly when it is selected: nothing fetched is without a loadbalancer,
      nothing matched is left unfetched. */
  lemma SelectedIffBucket(lbs: seq<Loadbalancer>, zones: seq<string>, zone: string)
    ensures zone in Selected(lbs, zones) <==> Bucket(lbs, zones, zone) != []
  {
    BucketMembers(lbs, zones, zone);
    var b := Bucket(lbs, zones, zone);
    if b != [] {
      assert b[0] in b;
    }
  }

  /** Buckets keep list order: the bucket of a concatenation is the concatenation of the buckets. */
  lemma {:induction false} BucketAppend(a: seq<Loadbalancer>, b: seq<Loadbalancer>, zones: seq<string>, zone: string)
    ensures Bucket(a + b, zones, zone) == Bucket(a, zones, zone) + Bucket(b, zones, zone)
  {
    if b == [] {
      assert a + b == a;
    } else {
      var n := |b| - 1;
      assert (a + b)[..|a + b| - 1] == a + b[..n];
      BucketAppend(a, b[..n], zones, zone);
    }
  }

  /* ---------- when the answer does not depend on how ties were sorted ---------- */

  /** Each loadbalancer has at most one longest contained name among `keys`. */
  ghost predicate UniqueLongest(lbs: seq<Loadbalancer>, keys: set<string>) {
    forall lb, y, z :: lb in lbs && IsLongestMatch(lb.name, keys, y) && IsLongestMatch(lb.name, keys, z) ==> y == z
  }

  ghost predicate SameMatches(lbs: seq<Loadbalancer>, zones: seq<string>, zones': seq<string>) {
    forall lb :: lb in lbs ==> FirstMatch(lb.name, zones) == FirstMatch(lb.name, zones')
  }

  lemma MatchIgnoresTies(lbs: seq<Loadbalancer>, zones: seq<string>, zones': seq<string>)
    requires NameSet(zones) == NameSet(zones') && UniqueLongest(lbs, NameSet(zones))
    requires ByLengthDesc(zones) && ByLengthDesc(zones')
    ensures SameMatches(lbs, zones, zones')
  {
    forall lb | lb in lbs ensures FirstMatch(lb.name, zones) == FirstMatch(lb.name, zones') {
      FirstMatchIsListed(lb.name, zones);
      FirstMatchIsListed(lb.name, zones');
      assert forall z :: z in zones <==> z in NameSet(zones);
      assert forall z :: z in zones' <==> z in NameSet(zones');
      if FirstMatch(lb.name, zones).Some? {
        FirstMatchIsLongest(lb.name, zones);
        FirstMatchIsLongest(lb.name, zones');
      }
    }
  }

  lemma {:induction false} BucketIgnoresTies(lbs: seq<Loadbalancer>, zones: seq<string>, zones': seq<string>,
                                             zone: string)
    requires SameMatches(lbs, zones, zones')
    ensures Bucket(lbs, zones, zone) == Bucket(lbs, zones', zone)
  {
    if lbs != [] {
      var n := |lbs| - 1;
      assert lbs[n] in lbs;
      BucketIgnoresTies(lbs[..n], zones, zones', zone);
    }
  }

  /** How many names at the front are longer than `n`. */
  function Longer(zones: seq<string>, n: nat): (k: nat)
    ensures k <= |zones|
  {
    if zones == [] || |zones[0]| <= n then 0 else 1 + Longer(zones[1..], n)
  }

  lemma {:induction false} LongerSplits(zones: seq<string>, n: nat)
    ensures var k := Longer(zones, n);
            (forall j :: 0 <= j < k ==> |zones[j]| > n) && (k < |zones| ==> |zones[k]| <= n)
  {
    if zones != [] && |zones[0]| > n {
      LongerSplits(zones[1..], n);
    }
  }

  /** `x` put in front of the names that are not longer. */
  function Inserted(zones: seq<string>, x: string): seq<string> {
    zones[..Longer(zones, |x|)] + [x] + zones[Longer(zones, |x|)..]
  }

  lemma SpliceElements(a: seq<string>, x: string, b: seq<string>)
    ensures multiset(a + [x] + b) == multiset(a + b) + multiset{x}
    ensures NameSet(a + [x] + b) == NameSet(a + b) + {x}
  {
    var r := a + [x] + b;
    assert r[|a|] == x;
    forall z ensures z in r <==> z in a + b || z == x {
      assert z in r <==> z in multiset(r);
      assert z in a + b <==> z in multiset(a + b);
    }
  }

  lemma InsertedElements(zones: seq<string>, x: string)
    ensures multiset(Inserted(zones, x)) == multiset(zones) + multiset{x}
    ensures NameSet(Inserted(zones, x)) == NameSet(zones) + {x}
  {
    var k := Longer(zones, |x|);
    assert zones == zones[..k] + zones[k..];
    SpliceElements(zones[..k], x, zones[k..]);
  }

  /** `x` comes right after the longer names, and the others keep their order. */
  lemma InsertedPosition(zones: seq<string>, x: string)
    ensures var k, r := Longer(zones, |x|), Inserted(zones, x);
            |r| == |zones| + 1 && r[k] == x && (forall i :: 0 <= i < k ==> r[i] == zones[i] && |r[i]| > |x|)
            && (forall i :: k < i < |r| ==> r[i] == zones[i - 1])
  {
    LongerSplits(zones, |x|);
  }

  lemma InsertedInOrder(zones: seq<string>, x: string)
    requires ByLengthDesc(zones)
    ensures ByLengthDesc(Inserted(zones, x))
  {
    LongerSplits(zones, |x|);
    InsertedPosition(zones, x);
    var k := Longer(zones, |x|);
    assert forall i :: k <= i < |zones| ==> |zones[i]| <= |x|;
  }

  ghost function Pick(keys: set<string>): string
    requires keys != {}
    ensures Pick(keys) in keys
  {
    var x :| x in keys;
    x
  }

  ghost function SortedListing(keys: set<string>): seq<string> {
    if keys == {} then [] else Inserted(SortedListing(keys - {Pick(keys)}), Pick(keys))
  }

  lemma {:induction false} SortedListingLists(keys: set<string>)
    ensures ByLengthDesc(SortedListing(keys)) && NameSet(SortedListing(keys)) == keys
  {
    if keys != {} {
      var x := Pick(keys);
      var rest := SortedListing(keys - {x});
      SortedListingLists(keys - {x});
      InsertedElements(rest, x);
      InsertedInOrder(rest, x);
      assert keys - {x} + {x} == keys;
    }
  }

  /** A sorted listing of `keys` that puts `first` before the other names of its length. */
  ghost function ListingWith(keys: set<string>, first: string): seq<string> {
    Inserted(SortedListing(keys - {first}), first)
  }

  lemma {:induction false} FirstMatchAt(name: string, zones: seq<string>, k: nat)
    requires k < |zones| && Contains(name, zones[k])
    requires forall j :: 0 <= j < k ==> !Contains(name, zones[j])
    ensures FirstMatch(name, zones) == Some(zones[k])
  {
    if k > 0 {
      FirstMatchAt(name, zones[1..], k - 1);
    }
  }

  lemma InsertedWinsTie(name: string, rest: seq<string>, zone: string)
    requires IsLongestMatch(name, NameSet(rest) + {zone}, zone)
    ensures FirstMatch(name, Inserted(rest, zone)) == Some(zone)
  {
    InsertedElements(rest, zone);
    InsertedPosition(rest, zone);
    LongestComesFirst(name, Inserted(rest, zone), Longer(rest, |zone|));
  }

  lemma ListingDecidesTie(name: string, keys: set<string>, zone: string)
    requires IsLongestMatch(name, keys, zone)
    ensures var zones := ListingWith(keys, zone);
            ByLengthDesc(zones) && NameSet(zones) == keys && FirstMatch(name, zones) == Some(zone)
  {
    var rest := SortedListing(keys - {zone});
    SortedListingLists(keys - {zone});
    assert NameSet(rest) + {zone} == keys;
    InsertedElements(rest, zone);
    InsertedInOrder(rest, zone);
    InsertedWinsTie(name, rest, zone);
  }

  lemma LongestComesFirst(name: string, zones: seq<string>, k: nat)
    requires k < |zones| && IsLongestMatch(name, NameSet(zones), zones[k])
    requires forall j :: 0 <= j < k ==> |zones[j]| > |zones[k]|
    ensures FirstMatch(name, zones) == Some(zones[k])
  {
    forall j | 0 <= j < k ensures !Contains(name, zones[j]) {
      assert zones[j] in NameSet(zones);
    }
    FirstMatchAt(name, zones, k);
  }

  /** No two sorted listings of `keys` assign a loadbalancer differently. */
  ghost predicate SortDecidesNothing(lbs: seq<Loadbalancer>, keys: set<string>) {
    forall zones, zones' |
      ByLengthDesc(zones) && ByLengthDesc(zones') && NameSet(zones) == keys && NameSet(zones') == keys
      :: SameMatches(lbs, zones, zones')
  }

  /** The unstable sort never changes an assignment exactly when every loadbalancer has a unique
      longest match. */
  lemma TiesMatterIffNotUnique(lbs: seq<Loadbalancer>, keys: set<string>)
    ensures UniqueLongest(lbs, keys) <==> SortDecidesNothing(lbs, keys)
  {
    if UniqueLongest(lbs, keys) {
      forall zones, zones' |
        ByLengthDesc(zones) && ByLengthDesc(zones') && NameSet(zones) == keys && NameSet(zones') == keys
        ensures SameMatches(lbs, zones, zones')
      {
        MatchIgnoresTies(lbs, zones, zones');
      }
    } else {
      var lb, y, z :| lb in lbs && IsLongestMatch(lb.name, keys, y) && IsLongestMatch(lb.name, keys, z) && y != z;
      ListingDecidesTie(lb.name, keys, y);
      ListingDecidesTie(lb.name, keys, z);
      assert !SameMatches(lbs, ListingWith(keys, y), ListingWith(keys, z));
    }
  }

  /* ---------- record names ---------- */

  function RecordName(lbName: string, zone: string): string {
    if lbName == zone then "" else TrimSuffix(lbName, "." + zone)
  }

  /** The name under which a zone serves its record `recordName`. */
  function ServedAs(recordName: string, zone: string): string {
    if recordName == "" then zone else recordName + "." + zone
  }

  /** `name` is `zone` itself or ends with a dot and `zone`. */
  predicate LabelAligned(name: string, zone: string) {
    name == zone || HasSuffix(name, "." + zone)
  }

  /** The record is served under the loadbalancer's own name exactly when that name is the zone's or
      lies properly below it; `strings.Contains` lets other names through. */
  lemma ServedUnderOwnName(name: string, zone: string)
    requires Contains(name, zone)
    ensures ServedAs(RecordName(name, zone), zone) == name <==> LabelAligned(name, zone) && name != "." + zone
  {
    var suffix := "." + zone;
    if name != zone {
      if HasSuffix(name, suffix) {
        var r := RecordName(name, zone);
        assert name == r + suffix;
        assert r + "." + zone == r + suffix;
        assert r == "" <==> name == suffix;
      } else {
        assert RecordName(name, zone) == name;
        assert name != "" by {
          var i :| 0 <= i <= |name| && OccursAt(name, zone, i);
        }
        assert |ServedAs(name, zone)| > |name|;
      }
    }
  }

  /** The name every loadbalancer is served under, aligned with the zone or not: its own if it lies
      properly below the zone or is the zone's, the zone's for the zone's dotted form, and otherwise its
      own with the zone's behind it. */
  lemma ServedName(name: string, zone: string)
    ensures ServedAs(RecordName(name, zone), zone)
         == if name == "" || name == "." + zone then zone
            else if LabelAligned(name, zone) then name
            else name + "." + zone
  {
    var suffix := "." + zone;
    if name != zone && HasSuffix(name, suffix) {
      var r := RecordName(name, zone);
      assert name == r + suffix;
      assert r + "." + zone == r + suffix;
      assert r == "" <==> name == suffix;
    }
  }

  /** Which loadbalancers take the apex of the zone. */
  lemma ApexNames(name: string, zone: string)
    ensures RecordName(name, zone) == "" <==> name == "" || name == zone || name == "." + zone
  {
    var suffix := "." + zone;
    if name != zone && HasSuffix(name, suffix) {
      assert name == RecordName(name, zone) + suffix;
      assert RecordName(name, zone) == "" ==> name == suffix;
    }
  }

  /** Record names tell aligned loadbalancer names apart, except that ".zone" and "zone" clash. */
  lemma RecordNameInjective(m: string, n: string, zone: string)
    requires LabelAligned(m, zone) && LabelAligned(n, zone)
    ensures RecordName(m, zone) == RecordName(n, zone)
       <==> m == n || {m, n} == {zone, "." + zone}
  {
    var suffix := "." + zone;
    assert m != zone ==> m == RecordName(m, zone) + suffix;
    assert n != zone ==> n == RecordName(n, zone) + suffix;
    assert RecordName(zone, zone) == "" && "" + suffix == suffix;
    assert RecordName(suffix, zone) == "";
    if m == zone && n != zone && RecordName(n, zone) == "" {
      assert n == suffix;
    }
    if n == zone && m != zone && RecordName(m, zone) == "" {
      assert m == suffix;
    }
    if {m, n} == {zone, suffix} {
      assert m in {zone, suffix} && n in {zone, suffix};
      assert zone in {m, n} && suffix in {m, n};
    }
  }

  /** When every contained zone is label-aligned, the chosen zone is the nearest ancestor of the name:
      every other listed ancestor is an ancestor of the chosen one (section 4.3.2 of RFC 1034). */
  lemma NearestAncestor(name: string, zones: seq<string>)
    requires ByLengthDesc(zones) && FirstMatch(name, zones).Some?
    requires forall z :: z in zones && Contains(name, z) ==> LabelAligned(name, z)
    ensures var zone := FirstMatch(name, zones).value;
            && LabelAligned(name, zone)
            && forall z :: z in zones && LabelAligned(name, z) ==> LabelAligned(zone, z)
  {
    var zone := FirstMatch(name, zones).value;
    FirstMatchIsLongest(name, zones);
    forall z | z in zones && LabelAligned(name, z) ensures LabelAligned(zone, z) {
      AlignedIsContained(name, z);
      SuffixOfSuffix(name, zone, z);
    }
  }

  lemma AlignedIsContained(name: string, zone: string)
    requires LabelAligned(name, zone)
    ensures Contains(name, zone)
  {
    var i := |name| - |zone|;
    assert name[i..] == zone by {
      if name != zone {
        assert name[i..] == ("." + zone)[1..];
      }
    }
    assert name[i..i + |zone|] == name[i..];
    assert OccursAt(name, zone, i);
  }

  lemma SuffixOfSuffix(name: string, long: string, short: string)
    requires LabelAligned(name, long) && LabelAligned(name, short) && |short| <= |long|
    ensures LabelAligned(long, short)
  {
    var i := |name| - |long|;
    assert name[i..] == long by {
      if name != long {
        assert name[i..] == ("." + long)[1..];
      }
    }
    if |short| < |long| {
      var j := |long| - |short| - 1;
      assert long[j..] == name[i + j..] == "." + short;
    } else {
      assert name != short ==> name[i..] == ("." + short)[1..];
    }
  }

  /** Names that no listed zone is contained in are never selected for. */
  lemma SelectedIsContained(lbs: seq<Loadbalancer>, zones: seq<string>, zone: string)
    requires zone in Selected(lbs, zones)
    ensures zone in zones && exists lb :: lb in lbs && Contains(lb.name, zone)
  {
    var lb :| lb in lbs && FirstMatch(lb.name, zones) == Some(zone);
    FirstMatchIsListed(lb.name, zones);
  }
}
