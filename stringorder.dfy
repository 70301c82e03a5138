// Python's ordering of `str` values and `sorted()` on a list of strings.
// Strings compare lexicographically by code point; a proper prefix sorts
// before every extension of it.

module StringOrder {

  /** `a < b` on Python strings. */
  predicate Below(a: string, b: string)
    ensures |a| < |b| && a == b[..|a|] ==> Below(a, b)
    ensures Below(a, b) && |b| <= |a| ==> a[..|b|] != b
    decreases |a|
  {
    if |a| == 0 then |b| > 0
    else if |b| == 0 then false
    else if a[0] != b[0] then a[0] < b[0]
    else
      assert |a| < |b| && a == b[..|a|] ==> a[1..] == b[1..][..|a| - 1];
      assert |b| <= |a| && a[..|b|] == b ==> a[1..][..|b| - 1] == b[1..];
      Below(a[1..], b[1..])
  }

  /** Python compares strings at the first position where they differ, by
      code point. */
  lemma {:induction false} BelowAtFirstDifference(a: string, b: string, i: nat)
    requires i < |a| && i < |b| && a[..i] == b[..i] && a[i] != b[i]
    ensures Below(a, b) <==> a[i] < b[i]
    decreases i
  {
    if i > 0 {
      assert a[0] == a[..i][0] && b[0] == b[..i][0];
      assert a[1..][..i - 1] == a[..i][1..] && b[1..][..i - 1] == b[..i][1..];
      BelowAtFirstDifference(a[1..], b[1..], i - 1);
    }
  }

  /** `a <= b` on Python strings. */
  predicate AtMost(a: string, b: string) {
    a == b || Below(a, b)
  }

  lemma {:induction false} BelowIrreflexive(a: string)
    ensures !Below(a, a)
    decreases |a|
  {
    if |a| > 0 {
      BelowIrreflexive(a[1..]);
    }
  }

  lemma {:induction false} BelowTransitive(a: string, b: string, c: string)
    requires Below(a, b) && Below(b, c)
    ensures Below(a, c)
    decreases |a|
  {
    if |a| > 0 && a[0] == b[0] && b[0] == c[0] {
      BelowTransitive(a[1..], b[1..], c[1..]);
    }
  }

  /** Any two different strings are ordered one way or the other, and
      never both ways. */
  lemma {:induction false} BelowTotal(a: string, b: string)
    ensures a != b <==> (Below(a, b) || Below(b, a))
    ensures !(Below(a, b) && Below(b, a))
    decreases |a|
  {
    if |a| > 0 && |b| > 0 && a[0] == b[0] {
      BelowTotal(a[1..], b[1..]);
      if a[1..] == b[1..] {
        assert a == [a[0]] + a[1..] && b == [b[0]] + b[1..];
      }
    } else if |a| == 0 || |b| == 0 {
      BelowIrreflexive(a);
    }
  }

  predicate Ascending(s: seq<string>) {
    forall i, j :: 0 <= i < j < |s| ==> AtMost(s[i], s[j])
  }

  /** `x` placed into the ascending list `s` before the first element that
      is not below it. */
  function Insert(x: string, s: seq<string>): (r: seq<string>)
    requires Ascending(s)
    ensures Ascending(r)
    ensures multiset(r) == multiset(s) + multiset{x}
    ensures |r| == |s| + 1
    ensures forall y :: y in r <==> y == x || y in s
  {
    if |s| == 0 then [x]
    else if AtMost(x, s[0]) then
      assert forall j :: 0 < j < |s| ==> AtMost(x, s[j]) by {
        forall j | 0 < j < |s| ensures AtMost(x, s[j]) {
          if x != s[0] && s[0] != s[j] {
            BelowTransitive(x, s[0], s[j]);
          }
        }
      }
      [x] + s
    else
      BelowTotal(x, s[0]);
      var rest := Insert(x, s[1..]);
      assert s == [s[0]] + s[1..];
      assert forall y :: y in rest ==> AtMost(s[0], y);
      [s[0]] + rest
  }

  /** `sorted(s)`: an ascending permutation of `s`. */
  function Sorted(s: seq<string>): (r: seq<string>)
    ensures Ascending(r)
    ensures multiset(r) == multiset(s)
    ensures |r| == |s|
  {
    if |s| == 0 then []
    else
      assert s == s[..|s| - 1] + [s[|s| - 1]];
      Insert(s[|s| - 1], Sorted(s[..|s| - 1]))
  }

  /** Two ascending permutations of each other start with the same string. */
  lemma SameFirst(s: seq<string>, t: seq<string>)
    requires Ascending(s) && Ascending(t) && multiset(s) == multiset(t) && |s| > 0
    ensures |t| == |s| && s[0] == t[0]
  {
    assert |t| == |s| by {
      assert |multiset(s)| == |s| && |multiset(t)| == |t|;
    }
    assert s[0] in multiset(t) && t[0] in multiset(s) by {
      assert s[0] in multiset(s) && t[0] in multiset(t);
    }
    var i :| 0 <= i < |t| && t[i] == s[0];
    var j :| 0 <= j < |s| && s[j] == t[0];
    assert AtMost(t[0], s[0]) && AtMost(s[0], t[0]);
    BelowTotal(s[0], t[0]);
  }

  /** Removing the same first string from two permutations of each other
      leaves permutations of each other. */
  lemma SameRest(s: seq<string>, t: seq<string>)
    requires multiset(s) == multiset(t) && |s| > 0 && |t| > 0 && s[0] == t[0]
    ensures multiset(s[1..]) == multiset(t[1..])
  {
    assert s == [s[0]] + s[1..] && t == [t[0]] + t[1..];
    calc {
      multiset(s[1..]);
      multiset(s) - multiset{s[0]};
      multiset(t) - multiset{t[0]};
      multiset(t[1..]);
    }
  }

  /** There is only one ascending arrangement of a list of strings, so any
      ascending permutation of `s` is `Sorted(s)`. */
  lemma {:induction false} AscendingPermutationUnique(s: seq<string>, t: seq<string>)
    requires Ascending(s) && Ascending(t) && multiset(s) == multiset(t)
    ensures s == t
    decreases |s|
  {
    if |s| > 0 {
      SameFirst(s, t);
      SameRest(s, t);
      AscendingPermutationUnique(s[1..], t[1..]);
      assert s == [s[0]] + s[1..] && t == [t[0]] + t[1..];
    } else {
      assert |multiset(t)| == |t|;
    }
  }

  /** Directory names that are numbers do not sort numerically: the run
      of latent size 16 is listed before the run of latent size 8. */
  lemma SixteenBeforeEight()
    ensures Below("runs/16", "runs/8")
    ensures Sorted(["runs/8", "runs/16"]) == ["runs/16", "runs/8"]
  {
    assert Below("runs/16", "runs/8") by {
      assert "runs/16"[5..] == "16" && "runs/8"[5..] == "8";
      assert Below("16", "8");
    }
    BelowTotal("runs/16", "runs/8");
    assert Sorted(["runs/8"]) == ["runs/8"];
  }
}
