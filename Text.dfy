/**
 * Text operations the storefront and the recommender rely on: case folding,
 * substring search ("includes" / "in") and the default string order of a sort.
 * Case folding covers the ASCII letters only.
 */
module Text {

  function LowerChar(c: char): (r: char)
    ensures !('A' <= r <= 'Z')
    ensures r == c || 'A' <= c <= 'Z'
  {
    if 'A' <= c <= 'Z' then (c as int - 'A' as int + 'a' as int) as char else c
  }

  /** The lower-case form of a string, character by character. */
  function Lower(s: string): (r: string)
    ensures |r| == |s|
    ensures forall i :: 0 <= i < |s| ==> r[i] == LowerChar(s[i])
  {
    seq(|s|, i requires 0 <= i < |s| => LowerChar(s[i]))
  }

  lemma LowerIdempotent(s: string)
    ensures Lower(Lower(s)) == Lower(s)
  {
  }

  lemma LowerEmpty()
    ensures Lower("") == ""
  {
  }

  /** `needle` occurs somewhere in `hay` as a contiguous block (the empty string occurs everywhere). */
  predicate Contains(hay: string, needle: string)
    decreases |hay|
  {
    needle <= hay || (hay != [] && Contains(hay[1..], needle))
  }

  /** Substring search after lower-casing both sides. */
  predicate ContainsIgnoringCase(hay: string, needle: string)
  {
    Contains(Lower(hay), Lower(needle))
  }

  lemma EverythingContainsEmpty(hay: string)
    ensures ContainsIgnoringCase(hay, "")
  {
    LowerEmpty();
  }

  /** Where the needle occurs when it is contained. */
  lemma {:induction false} ContainsAt(hay: string, needle: string) returns (i: nat)
    requires Contains(hay, needle)
    ensures i + |needle| <= |hay| && needle <= hay[i..]
    decreases |hay|
  {
    if needle <= hay {
      assert hay[0..] == hay;
      i := 0;
    } else {
      var j := ContainsAt(hay[1..], needle);
      assert hay[1..][j..] == hay[j + 1..];
      i := j + 1;
    }
  }

  /** An occurrence at any position makes the needle contained. */
  lemma {:induction false} OccurrenceContained(hay: string, needle: string, i: nat)
    requires i + |needle| <= |hay| && needle <= hay[i..]
    ensures Contains(hay, needle)
    decreases i
  {
    if i > 0 {
      assert hay[1..][i - 1..] == hay[i..];
      OccurrenceContained(hay[1..], needle, i - 1);
    } else {
      assert hay[0..] == hay;
    }
  }

  lemma ContainsIsSubstring(hay: string, needle: string)
    ensures Contains(hay, needle) <==> exists i :: 0 <= i <= |hay| - |needle| && needle <= hay[i..]
  {
    if Contains(hay, needle) {
      var i := ContainsAt(hay, needle);
    }
    if exists i :: 0 <= i <= |hay| - |needle| && needle <= hay[i..] {
      var i :| 0 <= i <= |hay| - |needle| && needle <= hay[i..];
      OccurrenceContained(hay, needle, i);
    }
  }

  /** Strictly before, comparing character codes left to right; a proper prefix comes first. */
  predicate Below(a: string, b: string)
    decreases |a|
  {
    b != [] && (a == [] || a[0] < b[0] || (a[0] == b[0] && Below(a[1..], b[1..])))
  }

  predicate AtMost(a: string, b: string)
  {
    a == b || Below(a, b)
  }

  lemma {:induction false} BelowTransitive(a: string, b: string, c: string)
    requires Below(a, b) && Below(b, c)
    ensures Below(a, c)
    decreases |a|
  {
    if a != [] && a[0] == b[0] && b[0] == c[0] {
      BelowTransitive(a[1..], b[1..], c[1..]);
    }
  }

  lemma {:induction false} BelowTotal(a: string, b: string)
    ensures a == b || Below(a, b) || Below(b, a)
    decreases |a|
  {
    if a != [] && b != [] && a[0] == b[0] {
      BelowTotal(a[1..], b[1..]);
      if a[1..] == b[1..] {
        assert a == [a[0]] + a[1..] && b == [b[0]] + b[1..];
      }
    }
  }

  lemma AtMostTransitive(a: string, b: string, c: string)
    requires AtMost(a, b) && AtMost(b, c)
    ensures AtMost(a, c)
  {
    if Below(a, b) && Below(b, c) {
      BelowTransitive(a, b, c);
    }
  }

  predicate Sorted(s: seq<string>)
  {
    forall i, j :: 0 <= i < j < |s| ==> AtMost(s[i], s[j])
  }

  /** Inserts `x` in front of the first element it does not exceed. */
  function Insert(x: string, s: seq<string>): (r: seq<string>)
    requires Sorted(s)
    ensures Sorted(r)
    ensures multiset(r) == multiset(s) + multiset{x}
  {
    if s == [] then
      [x]
    else if AtMost(x, s[0]) then
      assert Sorted([x] + s) by {
        forall k | 0 <= k < |s| ensures AtMost(x, s[k]) {
          AtMostTransitive(x, s[0], s[k]);
        }
      }
      [x] + s
    else
      var rest := Insert(x, s[1..]);
      assert s == [s[0]] + s[1..];
      assert Sorted([s[0]] + rest) by {
        BelowTotal(x, s[0]);
        forall k | 0 <= k < |rest| ensures AtMost(s[0], rest[k]) {
          assert rest[k] in multiset(s[1..]) + multiset{x};
          if rest[k] != x {
            var m :| 0 <= m < |s[1..]| && s[1..][m] == rest[k];
            assert s[m + 1] == rest[k];
          }
        }
      }
      [s[0]] + rest
  }

  /** The default sort of a list of strings: ascending by character codes, duplicates kept. */
  function SortStrings(s: seq<string>): (r: seq<string>)
    ensures Sorted(r)
    ensures multiset(r) == multiset(s)
  {
    if s == [] then []
    else
      assert s == [s[0]] + s[1..];
      Insert(s[0], SortStrings(s[1..]))
  }
}
