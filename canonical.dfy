/**
 * The canonical form a field set is signed over: entries sorted ascending by key,
 * each rendered `key=value`, joined with `&`, with no escaping of either character.
 */
module CanonicalForm {
  import opened KeyOrder

  function Entry(k: string, v: string): string
  {
    k + "=" + v
  }

  /** PHP's implode('&', parts). */
  function Join(parts: seq<string>): (s: string)
    ensures |parts| == 0 ==> s == ""
    ensures |parts| > 0 ==> |parts[0]| <= |s| && s[..|parts[0]|] == parts[0]
    ensures |parts| > 1 ==> |parts[0]| < |s| && s[|parts[0]|] == '&'
    decreases |parts|
  {
    if |parts| == 0 then ""
    else if |parts| == 1 then parts[0]
    else parts[0] + "&" + Join(parts[1..])
  }

  /** The rendered entries of `m`, in the order of `ks`. */
  function Entries(ks: seq<string>, m: map<string, string>): seq<string>
    requires forall k :: k in ks ==> k in m
  {
    seq(|ks|, i requires 0 <= i < |ks| => Entry(ks[i], m[ks[i]]))
  }

  /** The string prepareData returns for the field set `m`. */
  function Canonical(m: map<string, string>): (s: string)
    ensures m == map[] <==> s == ""
  {
    var ks := SortedKeys(m.Keys);
    if ks != [] then
      assert Entries(ks, m)[0] == ks[0] + "=" + m[ks[0]];
      Join(Entries(ks, m))
    else
      assert m.Keys == {};
      Join(Entries(ks, m))
  }

  /** The canonical string begins with the key ksort puts first. */
  lemma CanonicalHead(m: map<string, string>, k: string)
    requires IsLeast(k, m.Keys)
    ensures |k| < |Canonical(m)| && Canonical(m)[..|k|] == k
  {
    var ks := SortedKeys(m.Keys);
    assert ks[0] in ks;
    forall j | j in m.Keys && j != ks[0] ensures Less(ks[0], j) {
      var i :| 0 <= i < |ks| && ks[i] == j;
    }
    LeastUnique(m.Keys);
    assert ks[0] == k;
    var e := Entries(ks, m)[0];
    assert e == k + "=" + m[k];
    assert Canonical(m)[..|e|] == e;
    assert e[..|k|] == k;
  }

  /** The second character of the canonical string is that of the key ksort puts first. */
  lemma CanonicalSecondChar(m: map<string, string>, k: string)
    requires IsLeast(k, m.Keys) && 1 < |k|
    ensures 1 < |Canonical(m)| && Canonical(m)[1] == k[1]
  {
    CanonicalHead(m, k);
    assert Canonical(m)[..|k|][1] == Canonical(m)[1];
  }

  /**
   * Whatever order the entries are listed in before sorting, any ascending
   * arrangement of the keys renders to the canonical form.
   */
  lemma CanonicalOfAscending(m: map<string, string>, ks: seq<string>)
    requires Ascending(ks)
    requires forall k :: k in ks <==> k in m
    ensures Canonical(m) == Join(Entries(ks, m))
  {
    AscendingUnique(ks, SortedKeys(m.Keys));
  }

  lemma CanonicalSingleton(k: string, v: string)
    ensures Canonical(map[k := v]) == k + "=" + v
  {
    CanonicalOfAscending(map[k := v], [k]);
    assert Entries([k], map[k := v]) == [k + "=" + v];
  }

  /** Joining around one element: the element sits between a fixed prefix and a fixed suffix. */
  lemma {:induction false} JoinAround(a: seq<string>, x: string, b: seq<string>)
    ensures Join(a + [x] + b) ==
      (if a == [] then "" else Join(a) + "&") + x + (if b == [] then "" else "&" + Join(b))
    decreases |a|
  {
    if a == [] {
      assert a + [x] + b == [x] + b;
      assert ([x] + b)[1..] == b;
    } else {
      JoinAround(a[1..], x, b);
      assert (a + [x] + b)[1..] == a[1..] + [x] + b;
    }
  }

  lemma MiddleDiffers(p: string, x: string, y: string, q: string)
    requires x != y
    ensures p + x + q != p + y + q
  {
    var s, t := p + x + q, p + y + q;
    if |x| != |y| {
      assert |s| != |t|;
    } else {
      assert s[|p|..|p| + |x|] == x;
      assert t[|p|..|p| + |y|] == y;
    }
  }

  /** Two lists of entries that differ in exactly one position join to different strings. */
  lemma JoinDiffersAt(e: seq<string>, e': seq<string>, i: nat)
    requires |e| == |e'| && i < |e|
    requires e[i] != e'[i]
    requires forall j :: 0 <= j < |e| && j != i ==> e[j] == e'[j]
    ensures Join(e) != Join(e')
  {
    assert e[..i] == e'[..i];
    assert e[i + 1..] == e'[i + 1..];
    assert e == e[..i] + [e[i]] + e[i + 1..];
    assert e' == e'[..i] + [e'[i]] + e'[i + 1..];
    JoinAround(e[..i], e[i], e[i + 1..]);
    JoinAround(e'[..i], e'[i], e'[i + 1..]);
    MiddleDiffers(if e[..i] == [] then "" else Join(e[..i]) + "&", e[i], e'[i],
                  if e[i + 1..] == [] then "" else "&" + Join(e[i + 1..]));
  }

  /** Changing the value of one field always changes the canonical string. */
  lemma CanonicalValueSensitive(m: map<string, string>, k: string, v: string)
    requires k in m && m[k] != v
    ensures Canonical(m[k := v]) != Canonical(m)
  {
    var m' := m[k := v];
    assert m'.Keys == m.Keys;
    var ks := SortedKeys(m.Keys);
    assert k in ks;
    var i :| 0 <= i < |ks| && ks[i] == k;
    var e, e' := Entries(ks, m), Entries(ks, m');
    MiddleDiffers(k + "=", m[k], v, "");
    assert e[i] != e'[i];
    forall j | 0 <= j < |ks| && j != i ensures e[j] == e'[j] {
      LessIrreflexive(k);
      assert ks[j] != k;
    }
    JoinDiffersAt(e, e', i);
  }

  lemma CanonicalPair(a: string, b: string, c: string, d: string)
    requires Less(a, c)
    ensures Canonical(map[a := b, c := d]) == (a + "=" + b) + "&" + (c + "=" + d)
  {
    LessIrreflexive(a);
    var two := map[a := b, c := d];
    CanonicalOfAscending(two, [a, c]);
    assert Entries([a, c], two) == [Entry(a, b), Entry(c, d)];
  }

  /**
   * Values are not escaped, so different field sets can share a canonical string
   * and hence a signature: a value holding `&c=d` imitates a second field `c`.
   */
  lemma CanonicalAmbiguous(a: string, b: string, c: string, d: string)
    requires Less(a, c)
    ensures map[a := b + "&" + Entry(c, d)] != map[a := b, c := d]
    ensures Canonical(map[a := b + "&" + Entry(c, d)]) == Canonical(map[a := b, c := d])
  {
    LessIrreflexive(a);
    assert c !in map[a := b + "&" + Entry(c, d)];
    CanonicalSingleton(a, b + "&" + Entry(c, d));
    CanonicalPair(a, b, c, d);
    var x := a + "=";
    assert x + ((b + "&") + Entry(c, d)) == (x + (b + "&")) + Entry(c, d);
    assert x + (b + "&") == (x + b) + "&";
  }

  /** The array PHP builds by assigning `$data[k] = v` for each pair in turn. */
  function FromPairs(ps: seq<(string, string)>): map<string, string>
    decreases |ps|
  {
    if ps == [] then map[]
    else FromPairs(ps[..|ps| - 1])[ps[|ps| - 1].0 := ps[|ps| - 1].1]
  }

  predicate DistinctKeys(ps: seq<(string, string)>)
  {
    forall i, j :: 0 <= i < j < |ps| ==> ps[i].0 != ps[j].0
  }

  lemma {:induction false} FromPairsContents(ps: seq<(string, string)>)
    requires DistinctKeys(ps)
    ensures forall k :: k in FromPairs(ps) <==> exists i :: 0 <= i < |ps| && ps[i].0 == k
    ensures forall i :: 0 <= i < |ps| ==> FromPairs(ps)[ps[i].0] == ps[i].1
    decreases |ps|
  {
    if ps != [] {
      var init := ps[..|ps| - 1];
      assert DistinctKeys(init);
      FromPairsContents(init);
      forall k ensures k in FromPairs(ps) <==> exists i :: 0 <= i < |ps| && ps[i].0 == k {
        if k in FromPairs(init) {
          var i :| 0 <= i < |init| && init[i].0 == k;
          assert ps[i].0 == k;
        }
        if exists i :: 0 <= i < |ps| && ps[i].0 == k {
          var i :| 0 <= i < |ps| && ps[i].0 == k;
          if i < |init| {
            assert init[i].0 == k;
          }
        }
      }
    }
  }

  /** Every pair of `ps` also in `qs`: the field set built from `ps` is contained in the one from `qs`. */
  lemma FromPairsIncluded(ps: seq<(string, string)>, qs: seq<(string, string)>)
    requires DistinctKeys(ps) && DistinctKeys(qs)
    requires forall i :: 0 <= i < |ps| ==> ps[i] in qs
    ensures forall k :: k in FromPairs(ps) ==> k in FromPairs(qs) && FromPairs(ps)[k] == FromPairs(qs)[k]
  {
    FromPairsContents(ps);
    FromPairsContents(qs);
    forall k | k in FromPairs(ps) ensures k in FromPairs(qs) && FromPairs(ps)[k] == FromPairs(qs)[k] {
      var i :| 0 <= i < |ps| && ps[i].0 == k;
      var j :| 0 <= j < |qs| && qs[j] == ps[i];
    }
  }

  /**
   * Assigning the same distinct key/value pairs in any order gives the same field
   * set, so the canonical form ignores insertion order.
   */
  lemma InsertionOrderIrrelevant(ps: seq<(string, string)>, qs: seq<(string, string)>)
    requires DistinctKeys(ps) && DistinctKeys(qs)
    requires multiset(ps) == multiset(qs)
    ensures FromPairs(ps) == FromPairs(qs)
    ensures Canonical(FromPairs(ps)) == Canonical(FromPairs(qs))
  {
    forall i | 0 <= i < |ps| ensures ps[i] in qs {
      assert ps[i] in multiset(ps);
    }
    forall j | 0 <= j < |qs| ensures qs[j] in ps {
      assert qs[j] in multiset(qs);
    }
    FromPairsIncluded(ps, qs);
    FromPairsIncluded(qs, ps);
  }
}
