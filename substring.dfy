/** The substring test used by the package's tests to check error messages:
    `contains` (one short-circuit boolean expression) and `containsMiddle`
    (an index scan). Go strings are byte sequences and `len`, slicing and
    `==` work on bytes, so a string is a `seq<byte>` here. */
module Substring {

  newtype byte = x: int | 0 <= x < 256

  /** A Go string: its bytes. */
  type String = seq<byte>

  /** `sub` sits in `s` starting at byte `i`. */
  predicate OccursAt(s: String, sub: String, i: int) {
    0 <= i && i + |sub| <= |s| && s[i..i + |sub|] == sub
  }

  /** The mathematical substring relation: some start index carries `sub`. */
  predicate Occurs(s: String, sub: String) {
    exists i | 0 <= i <= |s| - |sub| :: OccursAt(s, sub, i)
  }

  /** An independent reference definition: `sub` is a prefix of `s` or
      occurs in the tail of `s`. */
  predicate OccursRec(s: String, sub: String)
    decreases |s|
  {
    (|sub| <= |s| && s[..|sub|] == sub) || (s != [] && OccursRec(s[1..], sub))
  }

  /** `contains` as written: the length guard, then the equality, prefix and
      suffix shortcuts, and only then the scan. The call to `containsMiddle`
      appears as its specification `Occurs`, which the method
      `ContainsMiddle` below is proved to compute. Every slice is in bounds
      because the guard `|s| > |sub|` is evaluated first. */
  function Contains(s: String, sub: String): bool {
    |s| >= |sub| &&
      (s == sub ||
       (|s| > |sub| &&
         (s[..|sub|] == sub || s[|s| - |sub|..] == sub || Occurs(s, sub))))
  }

  /** `containsMiddle`: tries every start index from 0 to `len(s)-len(substr)`
      and returns at the first match. When `sub` is longer than `s` the bound
      is negative and the loop body never runs. */
  method ContainsMiddle(s: String, sub: String) returns (found: bool)
    ensures found <==> Occurs(s, sub)
    ensures |sub| > |s| ==> !found
  {
    var i := 0;
    while i <= |s| - |sub|
      invariant 0 <= i
      invariant forall j :: 0 <= j < i ==> !OccursAt(s, sub, j)
      decreases |s| - |sub| - i
    {
      if s[i..i + |sub|] == sub {
        assert OccursAt(s, sub, i);
        return true;
      }
      i := i + 1;
    }
    return false;
  }

  /** A prefix of `s` occurs in `s`, at index 0. */
  lemma PrefixOccurs(s: String, k: nat)
    requires k <= |s|
    ensures Occurs(s, s[..k])
  {
    assert OccursAt(s, s[..k], 0);
  }

  /** A suffix of `s` occurs in `s`, at index `|s| - k`. */
  lemma SuffixOccurs(s: String, k: nat)
    requires k <= |s|
    ensures Occurs(s, s[|s| - k..])
  {
    assert OccursAt(s, s[|s| - k..], |s| - k);
  }

  /** The empty string occurs in every string, the empty one included. */
  lemma EmptyOccurs(s: String)
    ensures Occurs(s, [])
  {
    assert OccursAt(s, [], 0);
  }

  /** The shortcuts of `contains` neither add nor lose cases: it is exactly
      the substring relation. */
  lemma ContainsMatchesOccurs(s: String, sub: String)
    ensures Contains(s, sub) <==> Occurs(s, sub)
  {
    if |s| >= |sub| {
      if s == sub {
        PrefixOccurs(s, |s|);
        assert s[..|s|] == s;
      } else if |s| > |sub| {
        if s[..|sub|] == sub {
          PrefixOccurs(s, |sub|);
        } else if s[|s| - |sub|..] == sub {
          SuffixOccurs(s, |sub|);
        }
      }
    }
  }

  /** The individual cases `contains` settles before the scan; each follows
      from the guard or a shortcut alone. */
  lemma ContainsShortcuts(s: String, sub: String)
    ensures |s| < |sub| ==> !Contains(s, sub)
    ensures Contains(s, s)
    ensures Contains(s, [])
    ensures |sub| < |s| && s[..|sub|] == sub ==> Contains(s, sub)
    ensures |sub| < |s| && s[|s| - |sub|..] == sub ==> Contains(s, sub)
  {
  }

  /** The scan and the reference definition agree on every input. */
  lemma {:induction false} OccursRecMatchesOccurs(s: String, sub: String)
    ensures OccursRec(s, sub) <==> Occurs(s, sub)
    decreases |s|
  {
    if |sub| <= |s| && s[..|sub|] == sub {
      PrefixOccurs(s, |sub|);
    } else if s != [] {
      OccursRecMatchesOccurs(s[1..], sub);
      if Occurs(s[1..], sub) {
        var i :| 0 <= i <= |s| - 1 - |sub| && OccursAt(s[1..], sub, i);
        assert s[i + 1..i + 1 + |sub|] == s[1..][i..i + |sub|];
        assert OccursAt(s, sub, i + 1);
      }
      if Occurs(s, sub) {
        var i :| 0 <= i <= |s| - |sub| && OccursAt(s, sub, i);
        // Index 0 is excluded: `sub` is not a prefix of `s`.
        assert s[1..][i - 1..i - 1 + |sub|] == s[i..i + |sub|];
        assert OccursAt(s[1..], sub, i - 1);
      }
    }
  }
}
