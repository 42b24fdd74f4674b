/**
 * The split-horizon views that the zone constructor writes (converter.py, write_to_file):
 * addresses that serve the same zones share a view, found through a key that joins
 * the sorted zone names with '|' and is later split again into the view's zones.
 */
module Views {
  import opened Common
  import opened Zones

  const BAR: char := '|'

  // ---- sorted() ----

  // Lexicographic order by code point.
  predicate Leq(a: string, b: string)
    decreases |a|
  {
    a == "" || (b != "" && (a[0] < b[0] || (a[0] == b[0] && Leq(a[1..], b[1..]))))
  }

  /** The order by the first code point that differs, a prefix first. */
  lemma {:induction false} LeqIff(a: string, b: string)
    ensures Leq(a, b) <==> a <= b || exists i :: 0 <= i < |a| && i < |b| && a[..i] == b[..i] && a[i] < b[i]
    decreases |a|
  {
    if a != "" && b != "" && a[0] == b[0] {
      var x, y := a[1..], b[1..];
      LeqIff(x, y);
      assert a == [a[0]] + x && b == [b[0]] + y;
      assert a <= b <==> x <= y;
      if i :| 0 <= i < |x| && i < |y| && x[..i] == y[..i] && x[i] < y[i] {
        assert a[..i + 1] == [a[0]] + x[..i] && b[..i + 1] == [b[0]] + y[..i];
        assert a[i + 1] < b[i + 1];
      }
      if i :| 0 <= i < |a| && i < |b| && a[..i] == b[..i] && a[i] < b[i] {
        assert x[..i - 1] == a[..i][1..] && y[..i - 1] == b[..i][1..];
        assert x[i - 1] < y[i - 1];
      }
    } else if a != "" && b != "" {
      assert a[..0] == b[..0];
    }
  }

  lemma {:induction false} LeqTotal(a: string, b: string)
    ensures Leq(a, b) || Leq(b, a)
    ensures Leq(a, b) && Leq(b, a) ==> a == b
    decreases |a|
  {
    if a != "" && b != "" && a[0] == b[0] {
      LeqTotal(a[1..], b[1..]);
      assert a == [a[0]] + a[1..] && b == [b[0]] + b[1..];
    }
  }

  lemma {:induction false} LeqTransitive(a: string, b: string, c: string)
    requires Leq(a, b) && Leq(b, c)
    ensures Leq(a, c)
    decreases |a|
  {
    if a != "" && a[0] == b[0] && b[0] == c[0] {
      LeqTransitive(a[1..], b[1..], c[1..]);
    }
  }

  ghost predicate Least(m: string, s: set<string>) {
    m in s && forall x :: x in s ==> Leq(m, x)
  }

  lemma {:induction false} LeastExists(s: set<string>)
    requires s != {}
    ensures exists m :: Least(m, s)
    decreases s
  {
    var x :| x in s;
    LeqTotal(x, x);
    if s - {x} != {} {
      LeastExists(s - {x});
      var m :| Least(m, s - {x});
      LeqTotal(m, x);
      var k := if Leq(m, x) then m else x;
      forall y | y in s ensures Leq(k, y) {
        if y != x && k == x { LeqTransitive(x, m, y); }
      }
      assert Least(k, s);
    } else {
      assert s == {x};
      assert Least(x, s);
    }
  }

  lemma LeastUnique(s: set<string>, m: string, n: string)
    requires Least(m, s) && Least(n, s)
    ensures m == n
  {
    LeqTotal(m, n);
  }

  ghost function Min(s: set<string>): (m: string)
    requires s != {}
    ensures Least(m, s)
  {
    LeastExists(s);
    var m :| Least(m, s);
    m
  }

  ghost function Sorted(s: set<string>): seq<string> {
    if s == {} then []
    else
      var m := Min(s);
      [m] + Sorted(s - {m})
  }

  lemma {:induction false} SortedListing(s: set<string>)
    ensures |Sorted(s)| == |s|
    ensures forall z :: z in Sorted(s) <==> z in s
    ensures forall i, j :: 0 <= i < j < |s| ==> Leq(Sorted(s)[i], Sorted(s)[j]) && Sorted(s)[i] != Sorted(s)[j]
  {
    hide Leq;
    if s != {} {
      var m := Min(s);
      var rest, q := Sorted(s - {m}), Sorted(s);
      SortedListing(s - {m});
      assert q == [m] + rest;
      forall i, j | 0 <= i < j < |s| ensures Leq(q[i], q[j]) && q[i] != q[j] {
        assert q[j] == rest[j - 1] && q[j] in rest;
        if i > 0 { assert q[i] == rest[i - 1]; }
      }
    }
  }

  method FindLeast(s: set<string>) returns (m: string)
    requires s != {}
    ensures m == Min(s)
  {
    m := AnyOf(s);
    LeqTotal(m, m);
    var left := s - {m};
    while left != {}
      invariant left <= s
      invariant m in s && forall x :: x in s - left ==> Leq(m, x)
      decreases left
    {
      var x := AnyOf(left);
      LeqTotal(m, x);
      LeqTotal(x, x);
      if !Leq(m, x) {
        forall y | y in s - left ensures Leq(x, y) { LeqTransitive(x, m, y); }
        m := x;
      }
      left := left - {x};
    }
    LeastUnique(s, m, Min(s));
  }

  method Sort(s: set<string>) returns (q: seq<string>)
    ensures q == Sorted(s)
  {
    hide Sorted, Leq;
    q := [];
    var left := s;
    while left != {}
      invariant q + Sorted(left) == Sorted(s)
      decreases left
    {
      var m := FindLeast(left);
      SortedHead(left);
      assert q + ([m] + Sorted(left - {m})) == q + [m] + Sorted(left - {m});
      q, left := q + [m], left - {m};
    }
    SortedListing({});
  }

  lemma SortedHead(s: set<string>)
    requires s != {}
    ensures Sorted(s) == [Min(s)] + Sorted(s - {Min(s)})
  {
  }

  // ---- '|'.join and split('|') ----

  function Join(parts: seq<string>): string {
    if parts == [] then ""
    else if |parts| == 1 then parts[0]
    else parts[0] + [BAR] + Join(parts[1..])
  }

  // The first '|' in `s`, or its length.
  function Bar(s: string): (i: nat)
    ensures i <= |s|
    ensures i < |s| ==> s[i] == BAR && s[i] in s
    ensures forall k :: 0 <= k < i ==> s[k] != BAR
  {
    if s == "" || s[0] == BAR then 0
    else
      var i := Bar(s[1..]);
      assert forall k :: 1 <= k <= i ==> s[k] == s[1..][k - 1];
      i + 1
  }

  function Split(s: string): (parts: seq<string>)
    ensures parts != []
    ensures forall p :: p in parts ==> BAR !in p
    decreases |s|
  {
    var i := Bar(s);
    if i == |s| then [s] else [s[..i]] + Split(s[i + 1..])
  }

  lemma BarAfter(p: string, rest: string)
    requires BAR !in p
    ensures Bar(p + [BAR] + rest) == |p|
  {
    var s := p + [BAR] + rest;
    assert s[|p|] == BAR;
    assert forall k :: 0 <= k < |p| ==> s[k] == p[k];
  }

  lemma {:induction false} SplitJoin(parts: seq<string>)
    requires parts != []
    requires forall p :: p in parts ==> BAR !in p
    ensures Split(Join(parts)) == parts
    decreases |parts|
  {
    if |parts| > 1 {
      var p, rest := parts[0], Join(parts[1..]);
      BarAfter(p, rest);
      var s := p + [BAR] + rest;
      assert s[..|p|] == p && s[|p| + 1..] == rest;
      SplitJoin(parts[1..]);
    } else {
      assert parts == [parts[0]];
    }
  }

  // ---- View keys ----

  ghost function Key(zones: set<string>): string {
    Join(Sorted(zones))
  }

  function ZonesOf(key: string): set<string> {
    set p | p in Split(key)
  }

  predicate NoBar(zones: set<string>) {
    forall z :: z in zones ==> BAR !in z
  }

  /** The zones written for a view are the zones that its key was made of exactly when no name holds a '|'. */
  lemma KeyRecoversIffNoBar(zones: set<string>)
    requires zones != {}
    ensures ZonesOf(Key(zones)) == zones <==> NoBar(zones)
  {
    var parts := Sorted(zones);
    SortedListing(zones);
    if NoBar(zones) {
      SplitJoin(parts);
    } else {
      var z :| z in zones && BAR in z;
      assert z !in ZonesOf(Key(zones));
    }
  }

  lemma SameKeyIffSameZones(a: set<string>, b: set<string>)
    requires a != {} && b != {} && NoBar(a) && NoBar(b)
    ensures Key(a) == Key(b) <==> a == b
  {
    KeyRecoversIffNoBar(a);
    KeyRecoversIffNoBar(b);
  }

  // With a '|' in a name, two different sets can share a key.
  lemma BarConfusesViews()
    ensures Key({"a|b"}) == Key({"a", "b"})
  {
    var one := {"a|b"};
    assert |one| == 1;
    var q1 := Sorted(one);
    SortedListing(one);
    assert q1[0] in q1;
    assert q1[0] == "a|b";
    var two := {"a", "b"};
    assert |two| == 2;
    var q := Sorted(two);
    SortedListing(two);
    assert q[0] in q && q[1] in q;
    assert !Leq("b", "a");
    assert q[0] == "a" && q[1] == "b";
    assert q[1..] == ["b"];
    assert Join(q) == "a" + [BAR] + Join(q[1..]);
  }

  // ---- The views ----

  ghost function KeysOf(addr2name: map<string, set<string>>): set<string> {
    set a | a in addr2name :: Key(addr2name[a])
  }

  ghost function ViewsOf(addr2name: map<string, set<string>>): map<string, set<string>> {
    map k | k in KeysOf(addr2name) ::
      set a | a in addr2name && Key(addr2name[a]) == k
  }

  /** The grouping loop of write_to_file, over the addresses in any order. */
  method GroupViews(addr2name: map<string, set<string>>) returns (views: map<string, set<string>>)
    ensures views == ViewsOf(addr2name)
  {
    hide ViewsOf, Key, Sorted, Join;
    views := map[];
    var left := addr2name.Keys;
    ViewsNone();
    assert addr2name - left == map[];
    while left != {}
      invariant left <= addr2name.Keys
      invariant views == ViewsOf(addr2name - left)
      decreases left
    {
      var a := AnyOf(left);
      var names := Sort(addr2name[a]);
      var k := Join(names);
      KeyIsJoin(addr2name[a]);
      ViewsOneMore(addr2name - left, a, addr2name[a]);
      assert (addr2name - left)[a := addr2name[a]] == addr2name - (left - {a});
      if k !in views {
        views := views[k := {}];
      }
      views := views[k := views[k] + {a}];
      left := left - {a};
    }
    assert addr2name - left == addr2name;
  }

  lemma KeyIsJoin(zones: set<string>)
    ensures Key(zones) == Join(Sorted(zones))
  {
  }

  lemma ViewsNone()
    ensures ViewsOf(map[]) == map[]
  {
  }

  lemma ViewsOneMore(done: map<string, set<string>>, a: string, zones: set<string>)
    requires a !in done
    ensures var k, v := Key(zones), ViewsOf(done);
            ViewsOf(done[a := zones]) == v[k := (if k in v then v[k] else {}) + {a}]
  {
    hide Key;
    var k, v := Key(zones), ViewsOf(done);
    var l, r := ViewsOf(done[a := zones]), v[k := (if k in v then v[k] else {}) + {a}];
    assert l.Keys == r.Keys by {
      assert done[a := zones][a] == zones;
      forall x | x in v.Keys ensures x in l.Keys {
        var b :| b in done && Key(done[b]) == x;
        assert done[a := zones][b] == done[b];
      }
    }
    forall x | x in l.Keys ensures l[x] == r[x] {
      if x == k && k !in v {
        assert forall b :: b in done ==> Key(done[b]) != k;
      }
    }
  }

  /**
   * Views keep the meaning of the address table: every address is in exactly one view, two
   * addresses share one exactly when they serve the same zones, and looking a name up among the
   * zones written for the view finds what find_zone finds.
   */
  lemma ViewsPreserveMeaning(addr2name: map<string, set<string>>, a: string, b: string, name: string)
    requires a in addr2name && addr2name[a] != {} && NoBar(addr2name[a])
    requires b in addr2name && addr2name[b] != {} && NoBar(addr2name[b])
    ensures var views := ViewsOf(addr2name);
            var k := Key(addr2name[a]);
            && k in views && a in views[k]
            && (forall j :: j in views && a in views[j] ==> j == k)
            && (b in views[k] <==> addr2name[b] == addr2name[a])
            && ZonesOf(k) == addr2name[a]
            && Walk(ZonesOf(k), name) == Walk(addr2name[a], name)
  {
    hide Key, Walk, Split;
    SameKeyIffSameZones(addr2name[a], addr2name[b]);
    KeyRecoversIffNoBar(addr2name[a]);
  }

  // Views partition the addresses, whatever the names are.
  lemma ViewsPartition(addr2name: map<string, set<string>>, a: string)
    ensures a in addr2name <==> exists k :: k in ViewsOf(addr2name) && a in ViewsOf(addr2name)[k]
    ensures var views := ViewsOf(addr2name);
            forall j, k | j in views && k in views && a in views[j] && a in views[k] :: j == k
  {
    hide Key;
    if a in addr2name {
      var k := Key(addr2name[a]);
      assert k in ViewsOf(addr2name) && a in ViewsOf(addr2name)[k];
    }
  }
}
