/**
 * The ordering of `std::string` keys (`operator<`: character by character, a proper
 * prefix first), which fixes the order in which a `std::map` keyed by strings is
 * traversed.
 */
module Lex {

  /** `a < b` for `std::string`. */
  predicate Less(a: string, b: string)
    decreases |a|
  {
    if a == [] then b != []
    else b != [] && (a[0] < b[0] || (a[0] == b[0] && Less(a[1..], b[1..])))
  }

  lemma {:induction false} LessIrreflexive(a: string)
    ensures !Less(a, a)
    decreases |a|
  {
    if a != [] {
      LessIrreflexive(a[1..]);
    }
  }

  lemma {:induction false} LessTransitive(a: string, b: string, c: string)
    requires Less(a, b) && Less(b, c)
    ensures Less(a, c)
    decreases |a|
  {
    if a != [] && a[0] == b[0] && b[0] == c[0] {
      LessTransitive(a[1..], b[1..], c[1..]);
    }
  }

  lemma {:induction false} LessTotal(a: string, b: string)
    ensures a == b || Less(a, b) || Less(b, a)
    decreases |a|
  {
    if a != [] && b != [] && a[0] == b[0] {
      LessTotal(a[1..], b[1..]);
      if a[1..] == b[1..] {
        assert a == [a[0]] + a[1..] && b == [b[0]] + b[1..];
      }
    }
  }

  lemma LessAsymmetric(a: string, b: string)
    requires Less(a, b)
    ensures !Less(b, a)
  {
    if Less(b, a) {
      LessTransitive(a, b, a);
      LessIrreflexive(a);
    }
  }

  /** `m` is the first key of `keys` in ascending order. */
  predicate IsLeast(m: string, keys: set<string>) {
    m in keys && forall k :: k in keys && k != m ==> Less(m, k)
  }

  lemma {:induction false} LeastExists(keys: set<string>)
    requires keys != {}
    ensures exists m :: IsLeast(m, keys)
    decreases keys
  {
    var x :| x in keys;
    if keys != {x} {
      var others := keys - {x};
      LeastExists(others);
      var m :| IsLeast(m, others);
      LessTotal(x, m);
      if Less(x, m) {
        forall k | k in keys && k != x ensures Less(x, k) {
          if k != m { LessTransitive(x, m, k); }
        }
        assert IsLeast(x, keys);
      } else {
        assert IsLeast(m, keys);
      }
    } else {
      assert IsLeast(x, keys);
    }
  }

  lemma LeastUnique(keys: set<string>)
    ensures forall a, b :: IsLeast(a, keys) && IsLeast(b, keys) ==> a == b
  {
    forall a, b | IsLeast(a, keys) && IsLeast(b, keys) ensures a == b {
      if a != b {
        LessAsymmetric(a, b);
      }
    }
  }

  /** The key a `std::map` traversal of `keys` visits first. */
  function Least(keys: set<string>): (m: string)
    requires keys != {}
    ensures IsLeast(m, keys)
  {
    LeastExists(keys);
    LeastUnique(keys);
    var m :| IsLeast(m, keys);
    m
  }

  /** The keys of a `std::map` in traversal order: ascending. */
  function AscendingKeys(keys: set<string>): (ks: seq<string>)
    ensures |ks| == |keys|
    ensures forall k :: k in ks <==> k in keys
    decreases keys
  {
    if keys == {} then []
    else
      var m := Least(keys);
      [m] + AscendingKeys(keys - {m})
  }

  /** The traversal visits the keys in strictly ascending order, hence each once. */
  lemma {:induction false} AscendingKeysOrdered(keys: set<string>)
    ensures var ks := AscendingKeys(keys);
      forall i, j :: 0 <= i < j < |ks| ==> Less(ks[i], ks[j])
    decreases keys
  {
    if keys != {} {
      var m := Least(keys);
      var rest := keys - {m};
      AscendingKeysOrdered(rest);
      var ks := AscendingKeys(keys);
      assert ks[1..] == AscendingKeys(rest);
      forall i, j | 0 <= i < j < |ks| ensures Less(ks[i], ks[j]) {
        if i == 0 {
          assert ks[j] == ks[1..][j - 1];
          assert ks[j] in rest;
        } else {
          assert ks[i] == ks[1..][i - 1] && ks[j] == ks[1..][j - 1];
        }
      }
    }
  }

  /** Hence the traversal visits no key twice. */
  lemma AscendingKeysDistinct(keys: set<string>)
    ensures var ks := AscendingKeys(keys);
      forall i, j :: 0 <= i < j < |ks| ==> ks[i] != ks[j]
  {
    AscendingKeysOrdered(keys);
    var ks := AscendingKeys(keys);
    forall i, j | 0 <= i < j < |ks| ensures ks[i] != ks[j] {
      assert Less(ks[i], ks[j]);
      LessIrreflexive(ks[i]);
    }
  }
}
