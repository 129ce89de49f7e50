/** The order in which the key-value store lists the keys of an index: by time, then by id. */
module Ordering {

  predicate TextLess(a: string, b: string) {
    b != "" && (a == "" || a[0] < b[0] || (a[0] == b[0] && TextLess(a[1..], b[1..])))
  }

  lemma {:induction false} TextTotal(a: string, b: string)
    ensures TextLess(a, b) || a == b || TextLess(b, a)
    ensures !(TextLess(a, b) && TextLess(b, a)) && !TextLess(a, a)
    decreases |a|
  {
    if a != "" {
      TextTotal(a[1..], a[1..]);
      if b != "" {
        TextTotal(a[1..], b[1..]);
        if a[0] == b[0] && a[1..] == b[1..] {
          assert a == [a[0]] + a[1..] == b;
        }
      }
    }
  }

  lemma {:induction false} TextTransitive(a: string, b: string, c: string)
    requires TextLess(a, b) && TextLess(b, c)
    ensures TextLess(a, c)
    decreases |b|
  {
    if a != "" && a[0] == b[0] && b[0] == c[0] {
      TextTransitive(a[1..], b[1..], c[1..]);
    }
  }

  // After a common prefix of length `k`, `a` ends or goes on with a smaller character than `b`.
  ghost predicate SmallerAt(a: string, b: string, k: nat) {
    k <= |a| && k < |b| && a[..k] == b[..k] && (k == |a| || a[k] < b[k])
  }

  lemma SmallerStart(a: string, b: string, k: nat)
    requires SmallerAt(a, b, k)
    ensures k > 0 ==> a[0] == b[0]
  {
    if k > 0 {
      assert a[..k][0] == b[..k][0];
    }
  }

  /** The order of texts is the lexicographic one. */
  lemma {:induction false} TextLessIff(a: string, b: string)
    ensures TextLess(a, b) <==> exists k :: SmallerAt(a, b, k)
    decreases |a|
  {
    forall k: nat | SmallerAt(a, b, k) ensures k > 0 ==> a[0] == b[0] {
      SmallerStart(a, b, k);
    }
    if a == "" || b == "" || a[0] != b[0] {
      assert a[..0] == b[..0];
      if TextLess(a, b) {
        assert SmallerAt(a, b, 0);
      }
    } else {
      TextLessIff(a[1..], b[1..]);
      forall k: nat | SmallerAt(a[1..], b[1..], k) ensures SmallerAt(a, b, k + 1) {
        assert a[..k + 1] == [a[0]] + a[1..][..k] == b[..k + 1];
      }
      forall k: nat | SmallerAt(a, b, k) ensures k > 0 && SmallerAt(a[1..], b[1..], k - 1) {
        if k > 0 {
          assert a[1..][..k - 1] == a[..k][1..] == b[..k][1..] == b[1..][..k - 1];
        }
      }
    }
  }

  // A position in an index.
  datatype Pos = Pos(at: nat, id: string)

  predicate PosLess(p: Pos, q: Pos) {
    p.at < q.at || (p.at == q.at && TextLess(p.id, q.id))
  }

  lemma PosTotal(p: Pos, q: Pos)
    ensures PosLess(p, q) || p == q || PosLess(q, p)
    ensures !(PosLess(p, q) && PosLess(q, p)) && !PosLess(p, p)
  {
    TextTotal(p.id, q.id);
    TextTotal(p.id, p.id);
  }

  lemma PosTransitive(p: Pos, q: Pos, r: Pos)
    requires PosLess(p, q) && PosLess(q, r)
    ensures PosLess(p, r)
  {
    if p.at == q.at == r.at {
      TextTransitive(p.id, q.id, r.id);
    }
  }

  predicate Ascending(s: seq<Pos>) {
    forall i, j :: 0 <= i < j < |s| ==> PosLess(s[i], s[j])
  }

  // `s` lists exactly the positions of `keys`, in order.
  ghost predicate IsListing(s: seq<Pos>, keys: set<Pos>) {
    Ascending(s) && forall p :: p in s <==> p in keys
  }

  lemma ListingTail(s: seq<Pos>, keys: set<Pos>)
    requires IsListing(s, keys) && s != []
    ensures IsListing(s[1..], keys - {s[0]})
  {
    PosTotal(s[0], s[0]);
    assert s == [s[0]] + s[1..];
    forall p | p in s[1..] ensures p != s[0] {
      var i :| 0 <= i < |s[1..]| && s[1..][i] == p;
      assert s[i + 1] == p;
      PosTotal(p, p);
    }
  }

  lemma {:induction false} ListingUnique(s: seq<Pos>, t: seq<Pos>, keys: set<Pos>)
    requires IsListing(s, keys) && IsListing(t, keys)
    ensures s == t
    decreases |s|
  {
    if t != [] {
      assert t[0] in t;
    }
    if s != [] {
      assert s[0] in keys && s[0] in t;
      assert t[0] in keys && t[0] in s;
      var i :| 0 <= i < |s| && s[i] == t[0];
      var j :| 0 <= j < |t| && t[j] == s[0];
      PosTotal(s[0], t[0]);
      assert s[0] == t[0];
      ListingTail(s, keys);
      ListingTail(t, keys);
      ListingUnique(s[1..], t[1..], keys - {s[0]});
      assert s == [s[0]] + s[1..] && t == [t[0]] + t[1..];
    }
  }

  lemma LeastExists(keys: set<Pos>) returns (least: Pos)
    requires keys != {}
    ensures least in keys && forall p :: p in keys && p != least ==> PosLess(least, p)
    decreases |keys|
  {
    least :| least in keys;
    var rest := keys - {least};
    assert keys == rest + {least};
    if rest != {} {
      var other := LeastExists(rest);
      PosTotal(least, other);
      if PosLess(other, least) {
        least := other;
      } else {
        forall p | p in keys && p != least ensures PosLess(least, p) {
          if p != other {
            PosTransitive(least, other, p);
          }
        }
      }
    }
  }

  // What the store returns for a prefix.
  method List(keys: set<Pos>) returns (s: seq<Pos>)
    ensures IsListing(s, keys)
  {
    s := [];
    var left := keys;
    while left != {}
      invariant left <= keys && IsListing(s, keys - left)
      invariant forall i, p :: 0 <= i < |s| && p in left ==> PosLess(s[i], p)
      decreases left
    {
      ghost var least := LeastExists(left);
      var p :| p in left && forall q :: q in left && q != p ==> PosLess(p, q);
      assert keys - (left - {p}) == keys - left + {p};
      s := s + [p];
      left := left - {p};
    }
  }

  function Reverse<T>(s: seq<T>): (r: seq<T>)
    ensures |r| == |s| && forall i :: 0 <= i < |s| ==> r[i] == s[|s| - 1 - i]
  {
    seq(|s|, i requires 0 <= i < |s| => s[|s| - 1 - i])
  }
}
