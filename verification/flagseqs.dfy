/** Facts about sequences of flags and occurrence counts, used to describe
    the house as the eight flags of its parts in priority order. */
module FlagSeqs {

  /** Number of occurrences of `x` in `s`. */
  function Count<T(==)>(s: seq<T>, x: T): (n: nat)
    ensures n <= |s|
  {
    if s == [] then 0 else (if s[0] == x then 1 else 0) + Count(s[1..], x)
  }

  lemma {:induction false} CountAppend<T>(a: seq<T>, b: seq<T>, x: T)
    ensures Count(a + b, x) == Count(a, x) + Count(b, x)
  {
    if a == [] {
      assert a + b == b;
    } else {
      assert (a + b)[1..] == a[1..] + b;
      CountAppend(a[1..], b, x);
    }
  }

  /** Every entry equals `x` exactly when `x` occurs `|s|` times. */
  lemma {:induction false} CountFull<T>(s: seq<T>, x: T)
    ensures Count(s, x) == |s| <==> forall i :: 0 <= i < |s| ==> s[i] == x
  {
    if s != [] {
      CountFull(s[1..], x);
      if forall i :: 0 <= i < |s[1..]| ==> s[1..][i] == x {
        if s[0] == x {
          forall i | 0 <= i < |s| ensures s[i] == x {
            if i > 0 { assert s[i] == s[1..][i - 1]; }
          }
        }
      } else {
        var i :| 0 <= i < |s[1..]| && s[1..][i] != x;
        assert s[i + 1] != x;
      }
    }
  }

  /** The number of set flags is the number of positions holding one. */
  lemma {:induction false} CountIsIndexSet(fs: seq<bool>)
    ensures Count(fs, true) == |set i | 0 <= i < |fs| && fs[i]|
    decreases |fs|
  {
    if fs != [] {
      var n := |fs| - 1;
      var p := fs[..n];
      CountIsIndexSet(p);
      assert fs == p + [fs[n]];
      CountAppend(p, [fs[n]], true);
      assert [fs[n]][1..] == [];
      var below := set i | 0 <= i < |p| && p[i];
      var all := set i | 0 <= i < |fs| && fs[i];
      assert n !in below;
      if fs[n] {
        assert all == below + {n};
      } else {
        assert all == below;
      }
    }
  }

  /** Every flag is either set or unset. */
  lemma {:induction false} CountSplit(fs: seq<bool>)
    ensures Count(fs, true) + Count(fs, false) == |fs|
  {
    if fs != [] {
      CountSplit(fs[1..]);
      assert Count(fs, true) == (if fs[0] then 1 else 0) + Count(fs[1..], true);
      assert Count(fs, false) == (if fs[0] then 0 else 1) + Count(fs[1..], false);
    }
  }

  /** Setting one unset flag removes exactly one unset entry. */
  lemma {:induction false} CountAfterSet(fs: seq<bool>, k: nat)
    requires k < |fs| && !fs[k]
    ensures Count(fs[k := true], false) == Count(fs, false) - 1
  {
    if k == 0 {
      assert fs[k := true][1..] == fs[1..];
    } else {
      assert fs[k := true][1..] == fs[1..][k - 1 := true];
      CountAfterSet(fs[1..], k - 1);
    }
  }

  /** Index of the first unset flag, or `|fs|` when every flag is set. */
  function FirstUnset(fs: seq<bool>): (k: nat)
    ensures k <= |fs|
    ensures forall j :: 0 <= j < k ==> fs[j]
    ensures k < |fs| ==> !fs[k]
  {
    if fs == [] || !fs[0] then 0 else 1 + FirstUnset(fs[1..])
  }

  /** The three properties of `FirstUnset` determine it. */
  lemma FirstUnsetUnique(fs: seq<bool>, k: nat)
    requires k <= |fs|
    requires forall j :: 0 <= j < k ==> fs[j]
    requires k < |fs| ==> !fs[k]
    ensures FirstUnset(fs) == k
  {
  }

  /** The set flags form a prefix: a set flag has only set flags before it. */
  predicate Prefixed(fs: seq<bool>) {
    forall i, j :: 0 <= i < j < |fs| && fs[j] ==> fs[i]
  }

  /** In a prefix-shaped sequence, the set flags are exactly those before
      the first unset one, and their number is that index. */
  lemma {:induction false} PrefixedShape(fs: seq<bool>)
    requires Prefixed(fs)
    ensures forall i :: 0 <= i < |fs| ==> (fs[i] <==> i < FirstUnset(fs))
    ensures Count(fs, true) == FirstUnset(fs)
  {
    var k := FirstUnset(fs);
    assert fs == fs[..k] + fs[k..];
    CountAppend(fs[..k], fs[k..], true);
    CountFull(fs[..k], true);
    CountFull(fs[k..], false);
    CountSplit(fs[k..]);
  }

  /** Setting the first unset flag keeps the prefix shape. */
  lemma SetFirstUnsetKeepsPrefixed(fs: seq<bool>)
    requires Prefixed(fs)
    requires FirstUnset(fs) < |fs|
    ensures Prefixed(fs[FirstUnset(fs) := true])
  {
  }
}
