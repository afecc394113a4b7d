/** Small building blocks shared by the bot model: an option type, duplicate-free
    sequences (the iteration order of a JavaScript `Set`) and counting. */
module Base {

  datatype Option<T> = None | Some(value: T)

  /** No element occurs twice. */
  predicate NoDup<T(==)>(s: seq<T>) {
    forall i, j :: 0 <= i < j < |s| ==> s[i] != s[j]
  }

  lemma NoDupCons<T>(x: T, s: seq<T>)
    ensures NoDup([x] + s) <==> x !in s && NoDup(s)
  {
    var t := [x] + s;
    if x !in s && NoDup(s) {
      forall i, j | 0 <= i < j < |t| ensures t[i] != t[j] {
        if i > 0 { assert t[i] == s[i - 1] && t[j] == s[j - 1]; }
        else { assert t[j] == s[j - 1]; }
      }
    }
    if NoDup(t) {
      forall i, j | 0 <= i < j < |s| ensures s[i] != s[j] {
        assert s[i] == t[i + 1] && s[j] == t[j + 1];
      }
      forall k | 0 <= k < |s| ensures s[k] != x {
        assert t[0] == x && t[k + 1] == s[k];
      }
    }
  }

  lemma NoDupSnoc<T>(s: seq<T>, x: T)
    ensures NoDup(s + [x]) <==> x !in s && NoDup(s)
  {
    var t := s + [x];
    assert forall i :: 0 <= i < |s| ==> t[i] == s[i];
    if NoDup(t) {
      forall k | 0 <= k < |s| ensures s[k] != x {
        assert t[k] == s[k] && t[|s|] == x;
      }
    }
  }

  /** Number of `true` entries. */
  function CountTrue(bs: seq<bool>): (n: nat)
    ensures n <= |bs|
    ensures n == |bs| <==> forall i :: 0 <= i < |bs| ==> bs[i]
    ensures n == 0 <==> forall i :: 0 <= i < |bs| ==> !bs[i]
  {
    if bs == [] then 0
    else CountTrue(bs[..|bs| - 1]) + (if bs[|bs| - 1] then 1 else 0)
  }

  /** `x` occurs in `s` at a position where `y` has not occurred yet. */
  predicate FirstBefore<T(==)>(s: seq<T>, x: T, y: T) {
    exists p :: 0 <= p < |s| && s[p] == x && y !in s[..p + 1]
  }

  /** What `new Set(xs)` keeps of an array: every value once, at its first position. */
  function Dedup<T(==)>(s: seq<T>): (r: seq<T>)
    ensures NoDup(r)
    ensures forall i :: 0 <= i < |s| ==> s[i] in r
    ensures forall i :: 0 <= i < |r| ==> r[i] in s
    ensures |r| <= |s|
  {
    if s == [] then []
    else
      var d := Dedup(s[..|s| - 1]);
      NoDupSnoc(d, s[|s| - 1]);
      if s[|s| - 1] in d then d else d + [s[|s| - 1]]
  }

  /** `new Set(xs)` keeps the values in the order of their first occurrence. */
  lemma {:induction false} DedupFirstOrder<T>(s: seq<T>, a: nat, b: nat)
    requires a < b < |Dedup(s)|
    ensures FirstBefore(s, Dedup(s)[a], Dedup(s)[b])
  {
    var init := s[..|s| - 1];
    var x := s[|s| - 1];
    var d := Dedup(init);
    if b < |d| {
      DedupFirstOrder(init, a, b);
      var p :| 0 <= p < |init| && init[p] == d[a] && d[b] !in init[..p + 1];
      assert s[..p + 1] == init[..p + 1];
    } else {
      var p :| 0 <= p < |init| && init[p] == d[a];
      assert s[..p + 1] == init[..p + 1];
      assert x !in init[..p + 1] by {
        forall q | 0 <= q <= p ensures init[q] != x {
          assert init[q] in d;
        }
      }
    }
  }

  /** A duplicate-free list survives `new Set(...)` unchanged, order included. */
  lemma {:induction false} DedupOfDistinct<T>(s: seq<T>)
    requires NoDup(s)
    ensures Dedup(s) == s
  {
    if s != [] {
      var init := s[..|s| - 1];
      assert NoDup(init) by { NoDupSnoc(init, s[|s| - 1]); assert init + [s[|s| - 1]] == s; }
      DedupOfDistinct(init);
      assert s[|s| - 1] !in init by { NoDupSnoc(init, s[|s| - 1]); assert init + [s[|s| - 1]] == s; }
      assert init + [s[|s| - 1]] == s;
    }
  }
}
