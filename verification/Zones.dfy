/**
 * The zone constructor's state (converter.py): which zones exist, which addresses
 * serve them, and the search for the zone a record belongs to.
 */
module Zones {
  import opened Common

  // ---- Names ----

  function LowerChar(c: char): char {
    if 'A' <= c <= 'Z' then (c as int + 32) as char else c
  }

  function Lower(s: string): (r: string)
    ensures |r| == |s|
    ensures forall i :: 0 <= i < |s| ==> r[i] == LowerChar(s[i])
  {
    seq(|s|, i requires 0 <= i < |s| => LowerChar(s[i]))
  }

  lemma LowerTwice(s: string)
    ensures Lower(Lower(s)) == Lower(s)
  {
  }

  /** Two names have one lower-case form exactly when they differ in the case of ASCII letters alone. */
  lemma LowerIff(a: string, b: string)
    ensures Lower(a) == Lower(b) <==>
              |a| == |b| && forall i | 0 <= i < |a| ::
                || a[i] == b[i]
                || ('A' <= a[i] <= 'Z' && b[i] as int == a[i] as int + 32)
                || ('A' <= b[i] <= 'Z' && a[i] as int == b[i] as int + 32)
  {
    if |a| == |b| {
      forall i | 0 <= i < |a|
        ensures Lower(a)[i] == Lower(b)[i] <==>
                  || a[i] == b[i]
                  || ('A' <= a[i] <= 'Z' && b[i] as int == a[i] as int + 32)
                  || ('A' <= b[i] <= 'Z' && a[i] as int == b[i] as int + 32)
      {
        LowerCharIff(a[i], b[i]);
      }
      if Lower(a) == Lower(b) {
        assert forall i | 0 <= i < |a| :: Lower(a)[i] == Lower(b)[i];
      } else {
        var i :| 0 <= i < |a| && Lower(a)[i] != Lower(b)[i];
      }
    }
  }

  lemma LowerCharIff(a: char, b: char)
    ensures LowerChar(a) == LowerChar(b) <==>
              || a == b
              || ('A' <= a <= 'Z' && b as int == a as int + 32)
              || ('A' <= b <= 'Z' && a as int == b as int + 32)
  {
    assert 'A' as int == 65 && 'Z' as int == 90;
  }

  function UpperChar(c: char): char {
    if 'a' <= c <= 'z' then (c as int - 32) as char else c
  }

  function Upper(s: string): (r: string)
    ensures |r| == |s|
    ensures forall i :: 0 <= i < |s| ==> r[i] == UpperChar(s[i])
  {
    seq(|s|, i requires 0 <= i < |s| => UpperChar(s[i]))
  }

  predicate Contains(s: string, t: string) {
    exists i :: 0 <= i <= |s| && t <= s[i..]
  }

  predicate EndsWith(s: string, t: string) {
    |t| <= |s| && s[|s| - |t|..] == t
  }

  // The zone named `zone` contains `name`, label for label.
  predicate Encloses(zone: string, name: string) {
    name == zone || EndsWith(name, if zone == "." then zone else "." + zone)
  }

  // ---- Nearest enclosing zone ----

  ghost predicate Nearest(zones: set<string>, name: string, r: Option<string>) {
    match r
    case None => forall z :: z in zones ==> !Encloses(z, name)
    case Some(n) =>
      && n in zones && Encloses(n, name)
      && forall z :: z in zones && Encloses(z, name) && z != n ==> |z| < |n|
  }

  lemma EnclosesIsSuffix(zone: string, name: string)
    requires Encloses(zone, name)
    ensures |zone| <= |name| && name[|name| - |zone|..] == zone
  {
    if name != zone && zone != "." {
      var t := "." + zone;
      assert name[|name| - |t|..][1..] == zone;
      assert name[|name| - |t|..][1..] == name[|name| - |zone|..];
    }
  }

  lemma NearestUnique(zones: set<string>, name: string, r: Option<string>, r': Option<string>)
    requires Nearest(zones, name, r) && Nearest(zones, name, r')
    ensures r == r'
  {
  }

  // The first '.' at or after position `i`, or the length.
  function Dot(s: string, i: nat): (j: nat)
    requires i <= |s|
    ensures i <= j <= |s|
    ensures j < |s| ==> s[j] == '.'
    ensures forall k :: i <= k < j ==> s[k] != '.'
    decreases |s| - i
  {
    if i == |s| || s[i] == '.' then i else Dot(s, i + 1)
  }

  /**
   * The search the DNS prescribes (section 4.3.2 of RFC 1034): from the name towards the
   * root, label by label, up to the first zone that exists.
   */
  function Walk(zones: set<string>, name: string): Option<string> {
    if name in zones then Some(name) else WalkUp(zones, name)
  }

  function WalkUp(zones: set<string>, name: string): Option<string>
    decreases |name|
  {
    var i := Dot(name, 0);
    if i == |name| then None
    else
      var rest := name[i + 1..];
      if rest == "" then
        if "." in zones then Some(".") else if "" in zones then Some("") else None
      else if rest in zones then Some(rest)
      else WalkUp(zones, rest)
  }

  // Cutting off the first label changes neither what ends the name nor what encloses it.
  lemma SameEnd(name: string, cut: nat, t: string)
    requires cut <= |name| && |t| <= |name| - cut
    ensures EndsWith(name, t) <==> EndsWith(name[cut..], t)
  {
    assert name[cut..][|name| - cut - |t|..] == name[|name| - |t|..];
  }

  lemma EnclosesAbove(zone: string, name: string, i: nat)
    requires zone != name && Encloses(zone, name)
    requires i == Dot(name, 0)
    ensures i < |name|
    ensures name[i + 1..] == "" || Encloses(zone, name[i + 1..])
  {
    hide Dot;
    var t := if zone == "." then zone else "." + zone;
    var at := |name| - |t|;
    assert name[at..] == t && t[0] == '.';
    assert name[at] == name[at..][0];
    if i < at {
      SameEnd(name, i + 1, t);
    } else {
      assert i == at;
      assert name[at..][1..] == name[at + 1..];
      assert t[1..] == if zone == "." then "" else zone;
    }
  }

  lemma EnclosesBelow(zone: string, name: string, i: nat)
    requires i == Dot(name, 0) < |name|
    requires name[i + 1..] != "" && Encloses(zone, name[i + 1..])
    ensures Encloses(zone, name)
  {
    var rest := name[i + 1..];
    var t := if zone == "." then zone else "." + zone;
    if rest == zone && zone != "." {
      assert name[i..] == [name[i]] + rest;
    } else {
      SameEnd(name, i + 1, t);
    }
  }

  lemma SameEnclosing(zone: string, name: string, i: nat)
    requires zone != name && i == Dot(name, 0)
    ensures i == |name| ==> !Encloses(zone, name)
    ensures i < |name| && name[i + 1..] != "" ==> (Encloses(zone, name) <==> Encloses(zone, name[i + 1..]))
    ensures Encloses(zone, name) ==> |zone| < |name|
  {
    hide EndsWith, Dot;
    if Encloses(zone, name) {
      EnclosesAbove(zone, name, i);
      EnclosesIsSuffix(zone, name);
    }
    if i < |name| && name[i + 1..] != "" && Encloses(zone, name[i + 1..]) {
      EnclosesBelow(zone, name, i);
    }
  }

  lemma {:induction false} WalkUpIsNearest(zones: set<string>, name: string)
    requires name !in zones
    ensures Nearest(zones, name, WalkUp(zones, name))
    decreases |name|
  {
    hide Encloses, Dot;
    var i := Dot(name, 0);
    forall z | z in zones
      ensures i == |name| ==> !Encloses(z, name)
      ensures i < |name| && name[i + 1..] != "" ==> (Encloses(z, name) <==> Encloses(z, name[i + 1..]))
    {
      SameEnclosing(z, name, i);
    }
    if i < |name| {
      var rest := name[i + 1..];
      if rest == "" {
        LastLabel(zones, name);
      } else if rest in zones {
        ExactMatch(zones, rest);
      } else {
        WalkUpIsNearest(zones, rest);
      }
    }
  }

  lemma LastLabel(zones: set<string>, name: string)
    requires name !in zones
    requires Dot(name, 0) + 1 == |name|
    ensures Nearest(zones, name, WalkUp(zones, name))
  {
    assert name[|name| - 1..] == ".";
    forall z | z in zones && Encloses(z, name) ensures z == "." || z == "" {
      if z != "." {
        var at := |name| - |z| - 1;
        assert name[at] == name[at..][0] == '.';
      }
    }
  }

  lemma ExactMatch(zones: set<string>, name: string)
    requires name in zones
    ensures Nearest(zones, name, Some(name))
  {
    forall z | z in zones && Encloses(z, name) && z != name ensures |z| < |name| {
      EnclosesIsSuffix(z, name);
    }
  }

  /** The longest enclosing zone is the first one met on the way to the root. */
  lemma WalkIsNearest(zones: set<string>, name: string)
    ensures Nearest(zones, name, Walk(zones, name))
  {
    if name in zones {
      ExactMatch(zones, name);
    } else {
      WalkUpIsNearest(zones, name);
    }
  }

  // ---- The indexes ----

  datatype Record = Record(owner: string, rtype: string, rdata: string)

  datatype Zone = Zone(address: set<string>, records: set<Record>)

  datatype Indexes = Indexes(name2zone: map<string, Zone>, addr2name: map<string, set<string>>)

  predicate Serves(ix: Indexes, a: string, z: string) {
    a in ix.addr2name && z in ix.addr2name[a]
  }

  predicate Lists(ix: Indexes, a: string, z: string) {
    z in ix.name2zone && a in ix.name2zone[z].address
  }

  ghost predicate InStep(ix: Indexes) {
    && (forall a, z :: Serves(ix, a, z) <==> Lists(ix, a, z))
    && (forall a :: a in ix.addr2name ==> ix.addr2name[a] != {})
    && (forall z :: z in ix.name2zone ==> Lower(z) == z)
  }

  // add_name2zone
  function Named(ix: Indexes, name: string): (r: Indexes)
    ensures Lower(name) in r.name2zone
  {
    var z := Lower(name);
    if z in ix.name2zone then ix else ix.(name2zone := ix.name2zone[z := Zone({}, {})])
  }

  // The zones `zs` are served from all of `addrs`.
  function Hosted(ix: Indexes, zs: set<string>, addrs: set<string>): (r: Indexes)
  {
    Indexes(
      map z | z in ix.name2zone ::
        if z in zs then ix.name2zone[z].(address := ix.name2zone[z].address + addrs) else ix.name2zone[z],
      map a | a in ix.addr2name.Keys + addrs ::
        if a in addrs then NamesAt(ix, a) + zs else ix.addr2name[a])
  }

  function NamesAt(ix: Indexes, a: string): set<string> {
    if a in ix.addr2name then ix.addr2name[a] else {}
  }

  // add_record drops what its library cannot handle, and an SOA that is not the zone's own.
  predicate Accepts(z: string, r: Record) {
    && !Contains(Upper(r.rdata), "TYPE65534")
    && (r.rtype == "SOA" ==> r.owner == z)
  }

  /** TYPE65534 in any case starts at `i`. */
  predicate TypeAt(s: string, i: nat)
  {
    && i + 9 <= |s|
    && (s[i] == 'T' || s[i] == 't') && (s[i + 1] == 'Y' || s[i + 1] == 'y')
    && (s[i + 2] == 'P' || s[i + 2] == 'p') && (s[i + 3] == 'E' || s[i + 3] == 'e')
    && s[i + 4] == '6' && s[i + 5] == '5' && s[i + 6] == '5' && s[i + 7] == '3' && s[i + 8] == '4'
  }

  lemma TypeAtIff(s: string, i: nat)
    requires i <= |s|
    ensures "TYPE65534" <= Upper(s)[i..] <==> TypeAt(s, i)
  {
    var u := Upper(s)[i..];
    if i + 9 <= |s| {
      assert "TYPE65534" <= u <==> u[..9] == "TYPE65534";
      assert forall j | 0 <= j < 9 :: u[..9][j] == UpperChar(s[i + j]);
      assert u[..9] == [u[0], u[1], u[2], u[3], u[4], u[5], u[6], u[7], u[8]];
    }
  }

  /** On the fields of a record: refused are an SOA with another owner than the zone, and data with
      TYPE65534 in it, in any case; nothing else. */
  lemma AcceptsIff(z: string, r: Record)
    ensures !Accepts(z, r) <==>
              (r.rtype == "SOA" && r.owner != z) || exists i :: 0 <= i <= |r.rdata| && TypeAt(r.rdata, i)
  {
    hide TypeAt, Upper;
    forall i | 0 <= i <= |r.rdata| ensures "TYPE65534" <= Upper(r.rdata)[i..] <==> TypeAt(r.rdata, i) {
      TypeAtIff(r.rdata, i);
    }
  }

  function Accepted(z: string, records: set<Record>): set<Record> {
    set r | r in records && Accepts(z, r)
  }

  function Recorded(ix: Indexes, z: string, records: set<Record>): (r: Indexes)
    requires z in ix.name2zone
    ensures r.name2zone.Keys == ix.name2zone.Keys
  {
    var zone := ix.name2zone[z];
    ix.(name2zone := ix.name2zone[z := zone.(records := zone.records + Accepted(z, records))])
  }

  lemma NamedInStep(ix: Indexes, name: string)
    requires InStep(ix)
    ensures InStep(Named(ix, name))
    ensures forall a, z :: Serves(Named(ix, name), a, z) <==> Serves(ix, a, z)
  {
    LowerTwice(name);
    var r := Named(ix, name);
    forall a, z ensures Serves(r, a, z) <==> Lists(r, a, z) {
      assert Serves(ix, a, z) <==> Lists(ix, a, z);
    }
  }

  lemma HostedInStep(ix: Indexes, zs: set<string>, addrs: set<string>)
    requires InStep(ix) && zs <= ix.name2zone.Keys && zs != {}
    ensures InStep(Hosted(ix, zs, addrs))
    ensures forall a, z :: Serves(Hosted(ix, zs, addrs), a, z) <==> Serves(ix, a, z) || (a in addrs && z in zs)
  {
    var r := Hosted(ix, zs, addrs);
    forall a, z
      ensures Serves(r, a, z) <==> Serves(ix, a, z) || (a in addrs && z in zs)
      ensures Serves(r, a, z) <==> Lists(r, a, z)
    {
      assert Serves(ix, a, z) <==> Lists(ix, a, z);
    }
    var y :| y in zs;
    forall a | a in r.addr2name ensures r.addr2name[a] != {} {
      if a in addrs { assert y in r.addr2name[a]; }
    }
  }

  lemma RecordedInStep(ix: Indexes, z: string, records: set<Record>)
    requires InStep(ix) && z in ix.name2zone
    ensures InStep(Recorded(ix, z, records))
    ensures forall a, y :: Serves(Recorded(ix, z, records), a, y) <==> Serves(ix, a, y)
  {
    var r := Recorded(ix, z, records);
    forall a, y ensures Serves(r, a, y) <==> Lists(r, a, y) {
      assert Serves(ix, a, y) <==> Lists(ix, a, y);
    }
  }

  lemma HostedKeepsNames(ix: Indexes, zs: set<string>, addrs: set<string>)
    ensures Hosted(ix, zs, addrs).name2zone.Keys == ix.name2zone.Keys
  {
  }

  // Records added one by one, to one zone or two, add up too.
  lemma RecordedNone(ix: Indexes, z: string)
    requires z in ix.name2zone
    ensures Recorded(ix, z, {}) == ix
  {
    assert ix.name2zone[z].records + Accepted(z, {}) == ix.name2zone[z].records;
    assert Recorded(ix, z, {}).name2zone == ix.name2zone;
  }

  lemma RecordedOne(ix: Indexes, z: string, r: Record)
    requires z in ix.name2zone
    ensures Accepts(z, r) ==> Accepted(z, {r}) == {r}
    ensures !Accepts(z, r) ==> Recorded(ix, z, {r}) == ix
  {
    hide Accepts;
    if !Accepts(z, r) {
      assert Accepted(z, {r}) == {};
      assert ix.name2zone[z].records + {} == ix.name2zone[z].records;
      assert Recorded(ix, z, {r}).name2zone == ix.name2zone;
    }
  }

  lemma RecordedMerge(ix: Indexes, z: string, a: set<Record>, b: set<Record>)
    requires z in ix.name2zone
    ensures Recorded(Recorded(ix, z, a), z, b) == Recorded(ix, z, a + b)
  {
    hide Accepts;
    assert ix.name2zone[z].records + Accepted(z, a) + Accepted(z, b) == ix.name2zone[z].records + Accepted(z, a + b);
    assert Recorded(Recorded(ix, z, a), z, b).name2zone == Recorded(ix, z, a + b).name2zone;
  }

  lemma RecordedSwap(ix: Indexes, y: string, z: string, a: set<Record>, b: set<Record>)
    requires y in ix.name2zone && z in ix.name2zone && y != z
    ensures Recorded(Recorded(ix, y, a), z, b) == Recorded(Recorded(ix, z, b), y, a)
  {
    assert Recorded(Recorded(ix, y, a), z, b).name2zone == Recorded(Recorded(ix, z, b), y, a).name2zone;
  }

  // Hosting address by address, in any order, adds up.
  lemma HostedNone(ix: Indexes, zs: set<string>)
    ensures Hosted(ix, zs, {}) == ix
  {
    var r := Hosted(ix, zs, {});
    forall z | z in ix.name2zone ensures r.name2zone[z] == ix.name2zone[z] {
      assert ix.name2zone[z].address + {} == ix.name2zone[z].address;
    }
    assert r.name2zone == ix.name2zone;
    assert r.addr2name == ix.addr2name;
  }

  lemma HostedMergeZones(ix: Indexes, zs: set<string>, a: set<string>, b: set<string>)
    ensures Hosted(Hosted(ix, zs, a), zs, b).name2zone == Hosted(ix, zs, a + b).name2zone
  {
    var l, r := Hosted(Hosted(ix, zs, a), zs, b).name2zone, Hosted(ix, zs, a + b).name2zone;
    forall z | z in ix.name2zone ensures l[z] == r[z] {
      var o := ix.name2zone[z].address;
      assert o + a + b == o + (a + b);
    }
  }

  lemma HostedMerge(ix: Indexes, zs: set<string>, a: set<string>, b: set<string>)
    ensures Hosted(Hosted(ix, zs, a), zs, b) == Hosted(ix, zs, a + b)
  {
    var m := Hosted(ix, zs, a);
    var l, r := Hosted(m, zs, b), Hosted(ix, zs, a + b);
    HostedMergeZones(ix, zs, a, b);
    forall x | x in ix.addr2name.Keys + a + b ensures l.addr2name[x] == r.addr2name[x] {
      assert NamesAt(m, x) + zs == NamesAt(ix, x) + zs;
    }
    assert l.addr2name.Keys == r.addr2name.Keys;
    assert l.addr2name == r.addr2name;
  }

  // ---- Lookups in a collection of records ----

  // Owner names are stored in lower case, types in upper case.
  function Rdata(records: set<Record>, name: string, rtype: string): set<string> {
    set r | r in records && r.owner == Lower(name) && r.rtype == rtype :: r.rdata
  }

  function Rrset(records: set<Record>, name: string, rtype: string): set<Record> {
    set r | r in records && r.owner == Lower(name) && r.rtype == rtype
  }

  function AddressesOf(records: set<Record>, name: string): set<string> {
    Rdata(records, name, "A") + Rdata(records, name, "AAAA")
  }

  // ---- Creating zones from name server records ----

  datatype RRset = RRset(name: string, rtype: string, rdatas: seq<string>)

  // What create_zone copies into the zone: its NS records, and glue for a server inside it.
  function CopiedRecords(rrs: set<Record>, zone: string, ns: string): set<Record> {
    Rrset(rrs, zone, "NS") +
    (if Encloses(zone, ns) then Rrset(rrs, ns, "A") + Rrset(rrs, ns, "AAAA") else {})
  }

  function CreatedOne(ix: Indexes, zone: string, ns: string, rrs: set<Record>): (r: Indexes)
  {
    LowerTwice(zone);
    var z := Lower(zone);
    Recorded(Hosted(Named(ix, z), {z}, AddressesOf(rrs, ns)), z, CopiedRecords(rrs, z, ns))
  }

  function CreatedFrom(ix: Indexes, rrset: RRset, rrs: set<Record>, k: nat): Indexes
    requires k <= |rrset.rdatas|
  {
    if k == 0 then ix
    else CreatedOne(CreatedFrom(ix, rrset, rrs, k - 1), rrset.name, Lower(rrset.rdatas[k - 1]), rrs)
  }

  function Created(ix: Indexes, rrsets: seq<RRset>, rrs: set<Record>): Indexes {
    if rrsets == [] then ix
    else
      var last := rrsets[|rrsets| - 1];
      var before := Created(ix, rrsets[..|rrsets| - 1], rrs);
      if last.rtype == "NS" then CreatedFrom(before, last, rrs, |last.rdatas|) else before
  }

  // Some NS record among the first `k` of `rrset` says that `a` serves `z`.
  predicate SaysServed(rrset: RRset, rrs: set<Record>, k: nat, a: string, z: string)
    requires k <= |rrset.rdatas|
  {
    && z == Lower(rrset.name)
    && exists i :: 0 <= i < k && a in AddressesOf(rrs, Lower(rrset.rdatas[i]))
  }

  lemma CreatedOneInStep(ix: Indexes, zone: string, ns: string, rrs: set<Record>)
    requires InStep(ix)
    ensures InStep(CreatedOne(ix, zone, ns, rrs))
    ensures forall a, y :: Serves(CreatedOne(ix, zone, ns, rrs), a, y) <==>
              Serves(ix, a, y) || (a in AddressesOf(rrs, ns) && y == Lower(zone))
  {
    var z := Lower(zone);
    LowerTwice(zone);
    NamedInStep(ix, z);
    HostedInStep(Named(ix, z), {z}, AddressesOf(rrs, ns));
    RecordedInStep(Hosted(Named(ix, z), {z}, AddressesOf(rrs, ns)), z, CopiedRecords(rrs, z, ns));
  }

  lemma {:induction false} CreatedFromInStep(ix: Indexes, rrset: RRset, rrs: set<Record>, k: nat)
    requires InStep(ix) && k <= |rrset.rdatas|
    ensures InStep(CreatedFrom(ix, rrset, rrs, k))
    ensures forall a, z :: Serves(CreatedFrom(ix, rrset, rrs, k), a, z) <==>
              Serves(ix, a, z) || SaysServed(rrset, rrs, k, a, z)
  {
    hide CreatedOne, InStep;
    if k > 0 {
      CreatedFromInStep(ix, rrset, rrs, k - 1);
      CreatedOneInStep(CreatedFrom(ix, rrset, rrs, k - 1), rrset.name, Lower(rrset.rdatas[k - 1]), rrs);
    }
  }

  lemma SaysServedIff(s: RRset, rrs: set<Record>, k: nat, a: string, z: string)
    requires k <= |s.rdatas|
    ensures SaysServed(s, rrs, k, a, z) <==>
              z == Lower(s.name) && exists i, r :: 0 <= i < k && r in rrs && r.owner == Lower(s.rdatas[i])
                                     && (r.rtype == "A" || r.rtype == "AAAA") && r.rdata == a
  {
    forall i | 0 <= i < k
      ensures a in AddressesOf(rrs, Lower(s.rdatas[i])) <==>
                exists r :: r in rrs && r.owner == Lower(s.rdatas[i]) && (r.rtype == "A" || r.rtype == "AAAA") && r.rdata == a
    {
      AddressesIff(rrs, Lower(s.rdatas[i]), a);
      LowerTwice(s.rdatas[i]);
    }
  }

  lemma AddressesIff(records: set<Record>, name: string, a: string)
    ensures a in AddressesOf(records, name) <==>
              exists r :: r in records && r.owner == Lower(name) && (r.rtype == "A" || r.rtype == "AAAA") && r.rdata == a
  {
  }

  /**
   * After any batch of messages, an address serves a zone exactly when it did before, or the batch has an
   * NS record of that zone, naming a server, and the records have an A or AAAA record of that
   * server with that address.
   */
  lemma ServedExactly(ix: Indexes, rrsets: seq<RRset>, rrs: set<Record>, a: string, z: string)
    requires InStep(ix)
    ensures InStep(Created(ix, rrsets, rrs))
    ensures Serves(Created(ix, rrsets, rrs), a, z) <==>
              || Serves(ix, a, z)
              || exists s, i, r :: s in rrsets && s.rtype == "NS" && z == Lower(s.name) && 0 <= i < |s.rdatas|
                                && r in rrs && r.owner == Lower(s.rdatas[i])
                                && (r.rtype == "A" || r.rtype == "AAAA") && r.rdata == a
  {
    hide InStep, SaysServed, Serves, Created;
    CreatedInStep(ix, rrsets, rrs);
    forall s | s in rrsets
      ensures SaysServed(s, rrs, |s.rdatas|, a, z) <==>
                z == Lower(s.name) && exists i, r :: 0 <= i < |s.rdatas| && r in rrs && r.owner == Lower(s.rdatas[i])
                                       && (r.rtype == "A" || r.rtype == "AAAA") && r.rdata == a
    {
      SaysServedIff(s, rrs, |s.rdatas|, a, z);
    }
  }

  lemma {:induction false} CreatedInStep(ix: Indexes, rrsets: seq<RRset>, rrs: set<Record>)
    requires InStep(ix)
    ensures InStep(Created(ix, rrsets, rrs))
    ensures forall a, z :: Serves(Created(ix, rrsets, rrs), a, z) <==>
              || Serves(ix, a, z)
              || exists s :: s in rrsets && s.rtype == "NS" && SaysServed(s, rrs, |s.rdatas|, a, z)
  {
    hide InStep, SaysServed, Serves;
    if rrsets != [] {
      var n := |rrsets| - 1;
      var last := rrsets[n];
      CreatedInStep(ix, rrsets[..n], rrs);
      assert forall s :: s in rrsets <==> s in rrsets[..n] || s == last by {
        assert rrsets == rrsets[..n] + [last];
      }
      if last.rtype == "NS" {
        CreatedFromInStep(Created(ix, rrsets[..n], rrs), last, rrs, |last.rdatas|);
      }
    }
  }

  function RecordsAt(ix: Indexes, z: string): set<Record> {
    if z in ix.name2zone then ix.name2zone[z].records else {}
  }

  // Some NS record among the first `k` of `s` has `x` copied into `z`: one of the zone's own NS
  // records, or an address of a server that lies inside the zone.
  predicate SaysCopied(s: RRset, rrs: set<Record>, k: nat, z: string, x: Record)
    requires k <= |s.rdatas|
  {
    && z == Lower(s.name) && x in rrs && Accepts(z, x)
    && exists i :: 0 <= i < k && Copies(z, Lower(s.rdatas[i]), x)
  }

  predicate Copies(z: string, ns: string, x: Record) {
    || (x.owner == z && x.rtype == "NS")
    || (x.owner == ns && (x.rtype == "A" || x.rtype == "AAAA") && Encloses(z, ns))
  }

  lemma CreatedOneRecords(ix: Indexes, zone: string, ns: string, rrs: set<Record>, z: string, x: Record)
    requires Lower(ns) == ns
    ensures x in RecordsAt(CreatedOne(ix, zone, ns, rrs), z) <==>
              x in RecordsAt(ix, z) || (z == Lower(zone) && x in rrs && Accepts(z, x) && Copies(z, ns, x))
  {
    hide Accepts, Encloses;
    LowerTwice(zone);
  }

  lemma {:induction false} CreatedFromRecords(ix: Indexes, s: RRset, rrs: set<Record>, k: nat, z: string, x: Record)
    requires k <= |s.rdatas|
    ensures x in RecordsAt(CreatedFrom(ix, s, rrs, k), z) <==> x in RecordsAt(ix, z) || SaysCopied(s, rrs, k, z, x)
  {
    hide CreatedOne, RecordsAt, Accepts, Copies;
    if k > 0 {
      CreatedFromRecords(ix, s, rrs, k - 1, z, x);
      LowerTwice(s.rdatas[k - 1]);
      CreatedOneRecords(CreatedFrom(ix, s, rrs, k - 1), s.name, Lower(s.rdatas[k - 1]), rrs, z, x);
    }
  }

  /** After any batch of messages, a zone holds exactly what it held before and what some NS record of the batch has copied. */
  lemma {:induction false} CreatedExactly(ix: Indexes, rrsets: seq<RRset>, rrs: set<Record>, z: string, x: Record)
    ensures x in RecordsAt(Created(ix, rrsets, rrs), z) <==>
              || x in RecordsAt(ix, z)
              || exists s :: s in rrsets && s.rtype == "NS" && SaysCopied(s, rrs, |s.rdatas|, z, x)
  {
    hide SaysCopied, RecordsAt;
    if rrsets != [] {
      var n := |rrsets| - 1;
      var last := rrsets[n];
      CreatedExactly(ix, rrsets[..n], rrs, z, x);
      assert forall s :: s in rrsets <==> s in rrsets[..n] || s == last by {
        assert rrsets == rrsets[..n] + [last];
      }
      if last.rtype == "NS" {
        CreatedFromRecords(Created(ix, rrsets[..n], rrs), last, rrs, |last.rdatas|, z, x);
      }
    }
  }

  /** A batch creates exactly the zones that own one of its NS records. */
  lemma {:induction false} CreatedNames(ix: Indexes, rrsets: seq<RRset>, rrs: set<Record>, z: string)
    ensures z in Created(ix, rrsets, rrs).name2zone <==>
              z in ix.name2zone || exists s :: s in rrsets && s.rtype == "NS" && s.rdatas != [] && z == Lower(s.name)
  {
    hide CreatedOne;
    if rrsets != [] {
      var n := |rrsets| - 1;
      var last := rrsets[n];
      CreatedNames(ix, rrsets[..n], rrs, z);
      assert forall s :: s in rrsets <==> s in rrsets[..n] || s == last by {
        assert rrsets == rrsets[..n] + [last];
      }
      if last.rtype == "NS" {
        CreatedFromNames(Created(ix, rrsets[..n], rrs), last, rrs, |last.rdatas|, z);
      }
    }
  }

  lemma {:induction false} CreatedFromNames(ix: Indexes, s: RRset, rrs: set<Record>, k: nat, z: string)
    requires k <= |s.rdatas|
    ensures z in CreatedFrom(ix, s, rrs, k).name2zone <==> z in ix.name2zone || (k > 0 && z == Lower(s.name))
  {
    hide CreatedOne;
    if k > 0 {
      CreatedFromNames(ix, s, rrs, k - 1, z);
      CreatedOneNames(CreatedFrom(ix, s, rrs, k - 1), s.name, Lower(s.rdatas[k - 1]), rrs, z);
    }
  }

  lemma CreatedOneNames(ix: Indexes, zone: string, ns: string, rrs: set<Record>, z: string)
    ensures z in CreatedOne(ix, zone, ns, rrs).name2zone <==> z in ix.name2zone || z == Lower(zone)
  {
    hide AddressesOf, CopiedRecords;
    LowerTwice(zone);
  }

  // ---- Distributing the records of a message ----

  // Each record goes to the nearest zone that its sender serves; others are dropped.
  function PushedOne(ix: Indexes, srcIp: string, r: Record): Indexes
    requires srcIp in ix.addr2name && InStep(ix)
  {
    var z := Walk(ix.addr2name[srcIp], Lower(r.owner));
    if z.Some? then
      WalkServed(ix, srcIp, Lower(r.owner));
      Recorded(ix, z.value, {r.(owner := Lower(r.owner))})
    else ix
  }

  function Pushed(ix: Indexes, srcIp: string, records: seq<Record>): (r: Indexes)
    requires srcIp in ix.addr2name && InStep(ix)
    ensures InStep(r) && r.addr2name == ix.addr2name && r.name2zone.Keys == ix.name2zone.Keys
  {
    if records == [] then ix
    else
      var before := Pushed(ix, srcIp, records[..|records| - 1]);
      var last := records[|records| - 1];
      PushedOneInStep(before, srcIp, last);
      PushedOne(before, srcIp, last)
  }

  lemma WalkServed(ix: Indexes, a: string, name: string)
    requires a in ix.addr2name && InStep(ix) && Walk(ix.addr2name[a], name).Some?
    ensures Walk(ix.addr2name[a], name).value in ix.name2zone
  {
    WalkIsNearest(ix.addr2name[a], name);
    assert Serves(ix, a, Walk(ix.addr2name[a], name).value);
  }

  lemma PushedOneInStep(ix: Indexes, srcIp: string, r: Record)
    requires srcIp in ix.addr2name && InStep(ix)
    ensures InStep(PushedOne(ix, srcIp, r))
    ensures PushedOne(ix, srcIp, r).name2zone.Keys == ix.name2zone.Keys
    ensures PushedOne(ix, srcIp, r).addr2name == ix.addr2name
  {
    var z := Walk(ix.addr2name[srcIp], Lower(r.owner));
    if z.Some? {
      WalkServed(ix, srcIp, Lower(r.owner));
      RecordedInStep(ix, z.value, {r.(owner := Lower(r.owner))});
    }
  }

  /** A zone gains exactly the records whose nearest zone at the sender it is and which it accepts. */
  lemma {:induction false} PushedExactly(ix: Indexes, srcIp: string, records: seq<Record>, z: string, x: Record)
    requires srcIp in ix.addr2name && InStep(ix) && z in ix.name2zone
    ensures x in Pushed(ix, srcIp, records).name2zone[z].records <==>
              || x in ix.name2zone[z].records
              || (Accepts(z, x) && exists r :: r in records && x == r.(owner := Lower(r.owner))
                                            && Walk(ix.addr2name[srcIp], Lower(r.owner)) == Some(z))
    ensures Pushed(ix, srcIp, records).name2zone[z].address == ix.name2zone[z].address
  {
    hide InStep, Walk, Accepts;
    if records != [] {
      var n := |records| - 1;
      PushedExactly(ix, srcIp, records[..n], z, x);
      assert records == records[..n] + [records[n]];
      assert forall r :: r in records <==> r in records[..n] || r == records[n];
    }
  }

  // ---- The root hint ----

  const ROOT: string := "."
  const ROOT_SERVERS: string := "root-servers.net."

  function Hinted(lines: seq<Record>): set<Record> {
    set l | l in lines :: l.(owner := Lower(l.owner))
  }

  function HintedServers(lines: seq<Record>): set<Record> {
    set l | l in lines && l.rtype == "NS" :: l.(owner := ROOT_SERVERS)
  }

  // Every address of every server of the root.
  function RootAddresses(records: set<Record>, servers: set<string>): set<string> {
    set ns, a | ns in servers && a in AddressesOf(records, ns) :: a
  }

  function WithRoot(ix: Indexes, lines: seq<Record>): Indexes
  {
    LowerRoots();
    var named := Named(Named(ix, ROOT), ROOT_SERVERS);
    var told := Recorded(Recorded(named, ROOT, Hinted(lines)), ROOT_SERVERS, HintedServers(lines));
    var records := told.name2zone[ROOT].records;
    Hosted(told, {ROOT, ROOT_SERVERS}, RootAddresses(records, Rdata(records, ROOT, "NS")))
  }

  lemma LowerRoots()
    ensures Lower(ROOT) == ROOT && Lower(ROOT_SERVERS) == ROOT_SERVERS
  {
  }

  /** The root zone and its servers' zone are served from exactly the hinted addresses. */
  lemma WithRootInStep(ix: Indexes, lines: seq<Record>)
    requires InStep(ix) && ROOT !in ix.name2zone
    ensures InStep(WithRoot(ix, lines))
    ensures forall a, z :: Serves(WithRoot(ix, lines), a, z) <==>
              || Serves(ix, a, z)
              || (z in {ROOT, ROOT_SERVERS} &&
                  var hints := Accepted(ROOT, Hinted(lines));
                  exists ns :: ns in Rdata(hints, ROOT, "NS") && a in AddressesOf(hints, ns))
  {
    hide InStep, Hosted, Serves, AddressesOf, Rdata;
    LowerRoots();
    var named := Named(Named(ix, ROOT), ROOT_SERVERS);
    NamedInStep(ix, ROOT);
    NamedInStep(Named(ix, ROOT), ROOT_SERVERS);
    RecordedInStep(named, ROOT, Hinted(lines));
    RecordedInStep(Recorded(named, ROOT, Hinted(lines)), ROOT_SERVERS, HintedServers(lines));
    var told := Recorded(Recorded(named, ROOT, Hinted(lines)), ROOT_SERVERS, HintedServers(lines));
    var records := told.name2zone[ROOT].records;
    assert records == Accepted(ROOT, Hinted(lines));
    HostedInStep(told, {ROOT, ROOT_SERVERS}, RootAddresses(records, Rdata(records, ROOT, "NS")));
  }

  /** The same on the lines of the hint: an address serves the root and root-servers.net. exactly when it
      did before, or an accepted NS line of the root names a server of which an accepted A or AAAA line
      has that address. */
  lemma RootServedExactly(ix: Indexes, lines: seq<Record>, a: string, z: string)
    requires InStep(ix) && "." !in ix.name2zone
    ensures Serves(WithRoot(ix, lines), a, z) <==>
              || Serves(ix, a, z)
              || ((z == "." || z == "root-servers.net.") &&
                  exists n, l :: n in lines && l in lines && Gives(n, l, a))
  {
    hide WithRoot, InStep, Serves, Gives, Rdata, AddressesOf, Accepted;
    WithRootInStep(ix, lines);
    HintSays(lines, a);
  }

  /** Lines `n` and `l` together give the root a server with address `a`. */
  predicate Gives(n: Record, l: Record, a: string)
  {
    && n.rtype == "NS" && Lower(n.owner) == "."
    && (l.rtype == "A" || l.rtype == "AAAA") && Lower(l.owner) == Lower(n.rdata) && l.rdata == a
    && Accepts(".", n.(owner := Lower(n.owner))) && Accepts(".", l.(owner := Lower(l.owner)))
  }

  lemma HintSays(lines: seq<Record>, a: string)
    ensures var hints := Accepted(ROOT, Hinted(lines));
            (exists ns :: ns in Rdata(hints, ROOT, "NS") && a in AddressesOf(hints, ns)) <==>
            exists n, l :: n in lines && l in lines && Gives(n, l, a)
  {
    hide Gives, Rdata, AddressesOf, Accepted, Hinted;
    var hints := Accepted(ROOT, Hinted(lines));
    if exists ns :: ns in Rdata(hints, ROOT, "NS") && a in AddressesOf(hints, ns) {
      var ns :| ns in Rdata(hints, ROOT, "NS") && a in AddressesOf(hints, ns);
      var n, l := HintGives(lines, a, ns);
    }
    if exists n, l :: n in lines && l in lines && Gives(n, l, a) {
      var n, l :| n in lines && l in lines && Gives(n, l, a);
      GivenIsHinted(lines, a, n, l);
    }
  }

  lemma HintGives(lines: seq<Record>, a: string, ns: string) returns (n: Record, l: Record)
    requires var hints := Accepted(ROOT, Hinted(lines)); ns in Rdata(hints, ROOT, "NS") && a in AddressesOf(hints, ns)
    ensures n in lines && l in lines && Gives(n, l, a)
  {
    hide Accepts;
    LowerRoots();
    var hints := Accepted(ROOT, Hinted(lines));
    var rn :| rn in hints && rn.owner == "." && rn.rtype == "NS" && rn.rdata == ns;
    AddressesIff(hints, ns, a);
    var rl :| rl in hints && rl.owner == Lower(ns) && (rl.rtype == "A" || rl.rtype == "AAAA") && rl.rdata == a;
    n :| n in lines && rn == n.(owner := Lower(n.owner));
    l :| l in lines && rl == l.(owner := Lower(l.owner));
  }

  lemma GivenIsHinted(lines: seq<Record>, a: string, n: Record, l: Record)
    requires n in lines && l in lines && Gives(n, l, a)
    ensures var hints := Accepted(ROOT, Hinted(lines)); n.rdata in Rdata(hints, ROOT, "NS") && a in AddressesOf(hints, n.rdata)
  {
    hide Accepts;
    LowerRoots();
    var hints := Accepted(ROOT, Hinted(lines));
    var rn, rl := n.(owner := Lower(n.owner)), l.(owner := Lower(l.owner));
    assert rn in hints && rl in hints;
    assert rn.rdata in Rdata(hints, ROOT, "NS");
    AddressesIff(hints, n.rdata, a);
  }

  /** And the records of both zones: the lines themselves, and the NS lines with the owner replaced. */
  lemma RootRecordsExactly(ix: Indexes, lines: seq<Record>, x: Record)
    ensures x in RecordsAt(WithRoot(ix, lines), ".") <==>
              || x in RecordsAt(ix, ".")
              || (Accepts(".", x) && exists l :: l in lines && x == l.(owner := Lower(l.owner)))
    ensures x in RecordsAt(WithRoot(ix, lines), "root-servers.net.") <==>
              || x in RecordsAt(ix, "root-servers.net.")
              || (Accepts("root-servers.net.", x) && exists l :: l in lines && l.rtype == "NS" && x == l.(owner := "root-servers.net."))
  {
    hide Accepts, RootAddresses, Rdata;
    LowerRoots();
  }

  // ---- Every run ----

  datatype Event =
    | Hint(lines: seq<Record>)
    | Create(rrsets: seq<RRset>, rrs: set<Record>)
    | Push(srcIp: string, records: seq<Record>)

  // None where the program exits.
  function Step(ix: Indexes, e: Event): Option<Indexes>
    requires InStep(ix)
  {
    match e
    case Hint(lines) => if ROOT in ix.name2zone then None else Some(WithRoot(ix, lines))
    case Create(rrsets, rrs) => Some(Created(ix, rrsets, rrs))
    case Push(a, records) =>
      if records == [] then Some(ix)
      else if a !in ix.addr2name then None
      else Some(Pushed(ix, a, records))
  }

  function Run(es: seq<Event>): (r: Option<Indexes>)
    ensures r.Some? ==> InStep(r.value)
  {
    if es == [] then Some(Indexes(map[], map[]))
    else
      var before := Run(es[..|es| - 1]);
      if before.None? then None
      else
        StepInStep(before.value, es[|es| - 1]);
        Step(before.value, es[|es| - 1])
  }

  lemma StepInStep(ix: Indexes, e: Event)
    requires InStep(ix)
    ensures Step(ix, e).Some? ==> InStep(Step(ix, e).value)
  {
    hide InStep;
    match e {
      case Hint(lines) => if ROOT !in ix.name2zone { WithRootInStep(ix, lines); }
      case Create(rrsets, rrs) => CreatedInStep(ix, rrsets, rrs);
      case _ =>
    }
  }

  /** After every run, what an address serves is what the zones list, and nothing is dangling. */
  lemma EveryRunInStep(es: seq<Event>, a: string, name: string)
    requires Run(es).Some?
    ensures var ix := Run(es).value;
            && (forall z :: Serves(ix, a, z) <==> Lists(ix, a, z))
            && (a in ix.addr2name ==> forall z :: z in ix.addr2name[a] ==> z in ix.name2zone)
            && (a in ix.addr2name && Walk(ix.addr2name[a], name).Some? ==>
                  Lists(ix, a, Walk(ix.addr2name[a], name).value))
  {
    var ix := Run(es).value;
    forall z | Serves(ix, a, z) ensures Lists(ix, a, z) {}
    if a in ix.addr2name {
      WalkIsNearest(ix.addr2name[a], name);
      assert forall z :: z in ix.addr2name[a] ==> Serves(ix, a, z);
    }
  }

  // ---- The converter ----

  datatype Found = Found(zone: Option<string>) | NoSuchAddress

  class Converter {
    var name2zone: map<string, Zone>
    var addr2name: map<string, set<string>>

    ghost function Abs(): Indexes
      reads this
    {
      Indexes(name2zone, addr2name)
    }

    constructor ()
      ensures Abs() == Indexes(map[], map[])
    {
      name2zone, addr2name := map[], map[];
    }

    method AddName2Zone(name: string)
      modifies this`name2zone
      ensures Abs() == Named(old(Abs()), name)
    {
      var z := Lower(name);
      if z !in name2zone {
        name2zone := name2zone[z := Zone({}, {})];
      }
    }

    method AddAddr2Name(addr: string, name: string)
      modifies this`addr2name
      ensures addr2name == old(addr2name)[addr :=
                (if addr in old(addr2name) then old(addr2name)[addr] else {}) + {Lower(name)}]
    {
      if addr !in addr2name {
        addr2name := addr2name[addr := {}];
      }
      addr2name := addr2name[addr := addr2name[addr] + {Lower(name)}];
    }

    // The two updates that always go together.
    method HostOne(z: string, a: string)
      requires z in name2zone && Lower(z) == z
      modifies this
      ensures Abs() == Hosted(old(Abs()), {z}, {a})
    {
      name2zone := name2zone[z := name2zone[z].(address := name2zone[z].address + {a})];
      AddAddr2Name(a, z);
    }

    // Every address of a set, in any order.
    method Host(z: string, addrs: set<string>)
      requires z in name2zone && Lower(z) == z
      modifies this
      ensures Abs() == Hosted(old(Abs()), {z}, addrs)
    {
      hide Hosted;
      var left := addrs;
      HostedNone(old(Abs()), {z});
      assert addrs - left == {};
      while left != {}
        invariant left <= addrs
        invariant Abs() == Hosted(old(Abs()), {z}, addrs - left)
        invariant z in name2zone
        decreases left
      {
        var a := AnyOf(left);
        HostOne(z, a);
        HostedMerge(old(Abs()), {z}, addrs - left, {a});
        assert addrs - (left - {a}) == addrs - left + {a};
        left := left - {a};
        HostedKeepsNames(old(Abs()), {z}, addrs - left);
      }
      assert addrs - left == addrs;
    }

    /** The search of find_zone: any order over the set, best match so far, early exit. */
    method FindZone(srcIp: string, name: string) returns (r: Found)
      requires InStep(Abs())
      ensures r.NoSuchAddress? <==> srcIp !in addr2name
      ensures r.Found? ==> Nearest(addr2name[srcIp], Lower(name), r.zone)
      ensures r.Found? ==> r.zone == Walk(addr2name[srcIp], Lower(name))
      ensures r.Found? && r.zone.Some? ==> r.zone.value in name2zone && srcIp in name2zone[r.zone.value].address
    {
      var n := Lower(name);
      if srcIp !in addr2name { return NoSuchAddress; }
      var zones := addr2name[srcIp];
      WalkIsNearest(zones, n);
      var best, bestLen := None, -1;
      var left := zones;
      while left != {}
        invariant left <= zones
        invariant Nearest(zones - left, n, best)
        invariant bestLen == if best.Some? then |best.value| else -1
        invariant best.Some? ==> best.value != n
        decreases left
      {
        var z := AnyOf(left);
        if n == z {
          ExactMatch(zones, n);
          NearestUnique(zones, n, Some(z), Walk(zones, n));
          assert Serves(Abs(), srcIp, z);
          return Found(Some(z));
        }
        OneMore(zones - left, n, best, z);
        if EndsWith(n, if z == "." then z else "." + z) && |z| > bestLen {
          best, bestLen := Some(z), |z|;
        }
        assert zones - (left - {z}) == zones - left + {z};
        left := left - {z};
      }
      assert zones - left == zones;
      NearestUnique(zones, n, best, Walk(zones, n));
      assert best.Some? ==> Serves(Abs(), srcIp, best.value);
      return Found(best);
    }

    method AddRecord(z: string, r: Record)
      requires z in name2zone
      modifies this`name2zone
      ensures Abs() == Recorded(old(Abs()), z, {r})
    {
      RecordedOne(Abs(), z, r);
      if Contains(Upper(r.rdata), "TYPE65534") { return; }
      if r.rtype == "SOA" && r.owner != z { return; }
      name2zone := name2zone[z := name2zone[z].(records := name2zone[z].records + {r})];
    }

    method AddRecords(z: string, rs: set<Record>)
      requires z in name2zone
      modifies this`name2zone
      ensures Abs() == Recorded(old(Abs()), z, rs)
    {
      hide Recorded;
      var left := rs;
      RecordedNone(Abs(), z);
      assert rs - left == {};
      while left != {}
        modifies this`name2zone
        invariant left <= rs
        invariant z in name2zone && Abs() == Recorded(old(Abs()), z, rs - left)
        decreases left
      {
        var r := AnyOf(left);
        AddRecord(z, r);
        RecordedMerge(old(Abs()), z, rs - left, {r});
        assert rs - (left - {r}) == rs - left + {r};
        left := left - {r};
      }
      assert rs - left == rs;
    }

    // create_zone, for one server of one zone.
    method CreateOne(zone: string, ns: string, rrs: set<Record>)
      modifies this
      ensures Abs() == CreatedOne(old(Abs()), zone, ns, rrs)
    {
      hide Hosted, Recorded, Rrset, Rdata, CopiedRecords;
      LowerTwice(zone);
      var z := Lower(zone);
      AddName2Zone(z);
      ghost var named := Abs();
      Host(z, Rdata(rrs, ns, "A"));
      HostedKeepsNames(named, {z}, Rdata(rrs, ns, "A"));
      Host(z, Rdata(rrs, ns, "AAAA"));
      HostedMerge(named, {z}, Rdata(rrs, ns, "A"), Rdata(rrs, ns, "AAAA"));
      assert AddressesOf(rrs, ns) == Rdata(rrs, ns, "A") + Rdata(rrs, ns, "AAAA");
      HostedKeepsNames(named, {z}, AddressesOf(rrs, ns));
      ghost var hosted := Abs();
      AddRecords(z, Rrset(rrs, z, "NS"));
      if ns == z || EndsWith(ns, if z == "." then z else "." + z) {
        AddRecords(z, Rrset(rrs, ns, "A"));
        AddRecords(z, Rrset(rrs, ns, "AAAA"));
        RecordedMerge(hosted, z, Rrset(rrs, z, "NS"), Rrset(rrs, ns, "A"));
        RecordedMerge(hosted, z, Rrset(rrs, z, "NS") + Rrset(rrs, ns, "A"), Rrset(rrs, ns, "AAAA"));
      }
      CopiedSplit(rrs, z, ns);
    }

    method CreateZone(rrsets: seq<RRset>, rrs: set<Record>)
      requires InStep(Abs())
      modifies this
      ensures InStep(Abs())
      ensures Abs() == Created(old(Abs()), rrsets, rrs)
    {
      hide CreatedOne, InStep;
      CreatedInStep(Abs(), rrsets, rrs);
      for k := 0 to |rrsets|
        invariant Abs() == Created(old(Abs()), rrsets[..k], rrs)
      {
        var s := rrsets[k];
        assert rrsets[..k + 1][..k] == rrsets[..k];
        if s.rtype == "NS" {
          ghost var before := Abs();
          for i := 0 to |s.rdatas|
            invariant Abs() == CreatedFrom(before, s, rrs, i)
          {
            CreateOne(s.name, Lower(s.rdatas[i]), rrs);
          }
        }
      }
      assert rrsets[..|rrsets|] == rrsets;
    }

    /** push_zone: refuses a sender that serves nothing, unless there is nothing to push. */
    method PushZone(records: seq<Record>, srcIp: string) returns (ok: bool)
      requires InStep(Abs())
      modifies this`name2zone
      ensures ok <==> records == [] || srcIp in addr2name
      ensures InStep(Abs())
      ensures Abs() == if records == [] || !ok then old(Abs()) else Pushed(old(Abs()), srcIp, records)
    {
      if records == [] { return true; }
      if srcIp !in addr2name { return false; }
      hide Walk;
      for k := 0 to |records|
        invariant srcIp in addr2name && InStep(Abs())
        invariant Abs() == Pushed(old(Abs()), srcIp, records[..k])
      {
        var r := records[k];
        assert records[..k + 1][..k] == records[..k];
        PushedOneInStep(Abs(), srcIp, r);
        var z := FindZone(srcIp, r.owner);
        if z.zone.Some? {
          AddRecord(z.zone.value, r.(owner := Lower(r.owner)));
        }
      }
      assert records[..|records|] == records;
      return true;
    }

    /** process_root_hint */
    method ProcessRootHint(lines: seq<Record>) returns (ok: bool)
      requires InStep(Abs())
      modifies this
      ensures ok <==> ROOT !in old(name2zone)
      ensures InStep(Abs())
      ensures Abs() == if ok then WithRoot(old(Abs()), lines) else old(Abs())
    {
      if ROOT in name2zone { return false; }
      hide Hosted, InStep, Recorded, Hinted, HintedServers;
      WithRootInStep(Abs(), lines);
      LowerRoots();
      AddName2Zone(ROOT);
      AddName2Zone(ROOT_SERVERS);
      TellRoot(lines);
      HostRoot();
      return true;
    }

    // The hint's lines go to the root zone, its name servers also to their own zone.
    method TellRoot(lines: seq<Record>)
      requires ROOT in name2zone && ROOT_SERVERS in name2zone
      modifies this`name2zone
      ensures Abs() == Recorded(Recorded(old(Abs()), ROOT, Hinted(lines)), ROOT_SERVERS, HintedServers(lines))
    {
      hide Recorded, Hinted, HintedServers;
      ghost var named := Abs();
      HintedNone();
      RecordedNone(named, ROOT);
      RecordedNone(named, ROOT_SERVERS);
      for k := 0 to |lines|
        modifies this`name2zone
        invariant Abs() == Recorded(Recorded(named, ROOT, Hinted(lines[..k])), ROOT_SERVERS, HintedServers(lines[..k]))
      {
        var l := lines[k];
        ghost var root, servers := Hinted(lines[..k]), HintedServers(lines[..k]);
        ghost var line := l.(owner := Lower(l.owner));
        HintedSnoc(lines, k);
        AddRecord(ROOT, l.(owner := Lower(l.owner)));
        RecordedSwap(Recorded(named, ROOT, root), ROOT, ROOT_SERVERS, {line}, servers);
        RecordedMerge(named, ROOT, root, {line});
        ghost var more := Recorded(named, ROOT, root + {line});
        if l.rtype == "NS" {
          AddRecord(ROOT_SERVERS, l.(owner := ROOT_SERVERS));
          RecordedMerge(more, ROOT_SERVERS, servers, {l.(owner := ROOT_SERVERS)});
        } else {
          assert servers + {} == servers;
        }
      }
      assert lines[..|lines|] == lines;
    }

    // Every address of every root server, in any order, for both zones.
    method HostRoot()
      requires ROOT in name2zone && ROOT_SERVERS in name2zone
      modifies this
      ensures var records := old(name2zone)[ROOT].records;
              Abs() == Hosted(old(Abs()), {ROOT, ROOT_SERVERS}, RootAddresses(records, Rdata(records, ROOT, "NS")))
    {
      hide Hosted, Rdata, AddressesOf;
      var records := name2zone[ROOT].records;
      ghost var zs := {ROOT, ROOT_SERVERS};
      var servers := Rdata(records, ROOT, "NS");
      var left := servers;
      HostedNone(Abs(), zs);
      assert RootAddresses(records, servers - left) == {};
      while left != {}
        invariant left <= servers
        invariant Abs() == Hosted(old(Abs()), zs, RootAddresses(records, servers - left))
        invariant ROOT in name2zone && ROOT_SERVERS in name2zone
        decreases left
      {
        var ns := AnyOf(left);
        HostBoth(AddressesOf(records, ns));
        HostedMerge(old(Abs()), zs, RootAddresses(records, servers - left), AddressesOf(records, ns));
        assert servers - (left - {ns}) == servers - left + {ns};
        assert RootAddresses(records, servers - left + {ns}) == RootAddresses(records, servers - left) + AddressesOf(records, ns);
        left := left - {ns};
      }
      assert servers - left == servers;
    }

    method HostBoth(addrs: set<string>)
      requires ROOT in name2zone && ROOT_SERVERS in name2zone
      modifies this
      ensures Abs() == Hosted(old(Abs()), {ROOT, ROOT_SERVERS}, addrs)
      ensures name2zone.Keys == old(name2zone.Keys)
    {
      hide Hosted;
      ghost var zs := {ROOT, ROOT_SERVERS};
      var left := addrs;
      HostedNone(Abs(), zs);
      assert addrs - left == {};
      while left != {}
        invariant left <= addrs
        invariant Abs() == Hosted(old(Abs()), zs, addrs - left)
        invariant name2zone.Keys == old(name2zone.Keys)
        decreases left
      {
        var a := AnyOf(left);
        ghost var before := Abs();
        LowerRoots();
        HostOne(ROOT, a);
        HostedKeepsNames(before, {ROOT}, {a});
        HostOne(ROOT_SERVERS, a);
        HostedBoth(before, ROOT, ROOT_SERVERS, {a});
        HostedMerge(old(Abs()), zs, addrs - left, {a});
        HostedKeepsNames(before, zs, {a});
        assert addrs - (left - {a}) == addrs - left + {a};
        left := left - {a};
      }
      assert addrs - left == addrs;
    }
  }

  lemma CopiedSplit(rrs: set<Record>, zone: string, ns: string)
    ensures CopiedRecords(rrs, zone, ns) ==
      if Encloses(zone, ns) then Rrset(rrs, zone, "NS") + Rrset(rrs, ns, "A") + Rrset(rrs, ns, "AAAA")
      else Rrset(rrs, zone, "NS")
  {
  }

  lemma HintedNone()
    ensures Hinted([]) == {} && HintedServers([]) == {}
  {
  }

  lemma HintedSnoc(lines: seq<Record>, k: nat)
    requires k < |lines|
    ensures Hinted(lines[..k + 1]) == Hinted(lines[..k]) + {lines[k].(owner := Lower(lines[k].owner))}
    ensures HintedServers(lines[..k + 1])
         == HintedServers(lines[..k]) + if lines[k].rtype == "NS" then {lines[k].(owner := ROOT_SERVERS)} else {}
  {
    assert lines[..k + 1] == lines[..k] + [lines[k]];
  }

  lemma HostedBoth(ix: Indexes, y: string, z: string, addrs: set<string>)
    ensures Hosted(Hosted(ix, {y}, addrs), {z}, addrs) == Hosted(ix, {y, z}, addrs)
  {
    var m := Hosted(ix, {y}, addrs);
    var l, r := Hosted(m, {z}, addrs), Hosted(ix, {y, z}, addrs);
    forall n | n in ix.name2zone ensures l.name2zone[n] == r.name2zone[n] {
      var o := ix.name2zone[n].address;
      assert o + addrs + addrs == o + addrs;
    }
    assert l.name2zone == r.name2zone;
    forall a | a in ix.addr2name.Keys + addrs ensures l.addr2name[a] == r.addr2name[a] {
      assert a in addrs ==> NamesAt(m, a) + {z} == NamesAt(ix, a) + {y, z};
    }
    assert l.addr2name.Keys == r.addr2name.Keys;
    assert l.addr2name == r.addr2name;
  }

  lemma OneMore(seen: set<string>, n: string, best: Option<string>, z: string)
    requires Nearest(seen, n, best) && z != n && z !in seen
    ensures Nearest(seen + {z}, n,
              if Encloses(z, n) && (best.None? || |z| > |best.value|) then Some(z) else best)
  {
    if Encloses(z, n) && best.Some? {
      EnclosesIsSuffix(z, n);
      EnclosesIsSuffix(best.value, n);
    }
  }
}
