/** Lexicographic byte order: the order in which an ordered table lists its keys. */
module ByteOrder {
  import opened ByteStrings

  predicate LexLeq(a: Bytes, b: Bytes) {
    a == [] || (b != [] && (a[0] < b[0] || (a[0] == b[0] && LexLeq(a[1..], b[1..]))))
  }

  lemma {:induction false} LexTotal(a: Bytes, b: Bytes)
    ensures LexLeq(a, b) || LexLeq(b, a)
  {
    if a != [] && b != [] && a[0] == b[0] {
      LexTotal(a[1..], b[1..]);
    }
  }

  lemma {:induction false} LexAntisymmetric(a: Bytes, b: Bytes)
    requires LexLeq(a, b) && LexLeq(b, a)
    ensures a == b
  {
    if a != [] {
      LexAntisymmetric(a[1..], b[1..]);
      assert a == [a[0]] + a[1..] && b == [b[0]] + b[1..];
    }
  }

  lemma {:induction false} LexTransitive(a: Bytes, b: Bytes, c: Bytes)
    requires LexLeq(a, b) && LexLeq(b, c)
    ensures LexLeq(a, c)
  {
    if a != [] && a[0] == b[0] == c[0] {
      LexTransitive(a[1..], b[1..], c[1..]);
    }
  }

  lemma {:induction false} PrefixIsLeq(p: Bytes, a: Bytes)
    requires p <= a
    ensures LexLeq(p, a)
  {
    if p != [] {
      PrefixIsLeq(p[1..], a[1..]);
    }
  }

  /** The keys with a given prefix are contiguous: whatever lies between the prefix itself and a
      key that has it, has it too. So a scan may stop at the first key without the prefix. */
  lemma {:induction false} PrefixedKeysAreContiguous(p: Bytes, a: Bytes, c: Bytes)
    requires LexLeq(p, a) && LexLeq(a, c) && p <= c
    ensures p <= a
  {
    if p != [] {
      assert c[0] == p[0] && a[0] == p[0];
      assert p[1..] <= c[1..];
      PrefixedKeysAreContiguous(p[1..], a[1..], c[1..]);
      assert a == [a[0]] + a[1..] && p == [p[0]] + p[1..];
    }
  }

  /** `k` is the first of `keys` in table order. */
  ghost predicate IsFirst(k: Bytes, keys: set<Bytes>) {
    k in keys && forall j :: j in keys ==> LexLeq(k, j)
  }

  lemma {:induction false} FirstExists(keys: set<Bytes>)
    requires keys != {}
    ensures exists k :: IsFirst(k, keys)
  {
    var x :| x in keys;
    LexTotal(x, x);
    if keys == {x} {
      assert IsFirst(x, keys);
    } else {
      FirstExists(keys - {x});
      var y :| IsFirst(y, keys - {x});
      LexTotal(x, y);
      var k := if LexLeq(x, y) then x else y;
      forall j | j in keys ensures LexLeq(k, j) {
        if j != x && k == x {
          LexTransitive(x, y, j);
        }
      }
      assert IsFirst(k, keys);
    }
  }
}
