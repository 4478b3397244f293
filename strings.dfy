/**
 * The string operations the scripts borrow from Python: `needle in hay`,
 * `sep.join(parts)`, and the ordering `sorted` uses on file names.
 */
module Strings {

  /** `needle in hay`, stated by position: some slice of `hay` is `needle`. */
  ghost predicate IsSubstring(needle: string, hay: string) {
    exists i :: OccursAt(needle, hay, i)
  }

  /** `needle` starts at position `i` of `hay`. */
  ghost predicate OccursAt(needle: string, hay: string, i: int) {
    0 <= i <= |hay| - |needle| && hay[i..i + |needle|] == needle
  }

  /** `needle in hay`, computed by trying every start position from the left. */
  predicate Contains(hay: string, needle: string)
    decreases |hay|
  {
    needle <= hay || (|hay| > 0 && Contains(hay[1..], needle))
  }

  lemma {:induction false} ContainsIsSubstring(hay: string, needle: string)
    ensures Contains(hay, needle) <==> IsSubstring(needle, hay)
    decreases |hay|
  {
    if needle <= hay {
      PrefixOccurs(hay, needle);
    } else if |hay| > 0 {
      ContainsIsSubstring(hay[1..], needle);
      if IsSubstring(needle, hay[1..]) {
        OccursInTail(hay, needle);
      }
      if IsSubstring(needle, hay) {
        OccursLater(hay, needle);
      }
    }
  }

  /** A string never contains a longer one. */
  lemma {:induction false} ShorterLacks(hay: string, needle: string)
    requires |hay| < |needle|
    ensures !Contains(hay, needle)
    decreases |hay|
  {
    if |hay| > 0 {
      ShorterLacks(hay[1..], needle);
    }
  }

  lemma PrefixOccurs(hay: string, needle: string)
    requires needle <= hay
    ensures IsSubstring(needle, hay)
  {
    assert hay[0..|needle|] == needle;
    assert OccursAt(needle, hay, 0);
  }

  /** An occurrence in `hay[1..]` is one in `hay`, one place further on. */
  lemma OccursInTail(hay: string, needle: string)
    requires |hay| > 0 && IsSubstring(needle, hay[1..])
    ensures IsSubstring(needle, hay)
  {
    var tail := hay[1..];
    var i :| OccursAt(needle, tail, i);
    assert hay[i + 1..i + 1 + |needle|] == tail[i..i + |needle|];
    assert OccursAt(needle, hay, i + 1);
  }

  /** An occurrence in `hay` that is not at the front is one in `hay[1..]`. */
  lemma OccursLater(hay: string, needle: string)
    requires |hay| > 0 && !(needle <= hay) && IsSubstring(needle, hay)
    ensures IsSubstring(needle, hay[1..])
  {
    var tail := hay[1..];
    var i :| OccursAt(needle, hay, i);
    assert i != 0;
    assert tail[i - 1..i - 1 + |needle|] == hay[i..i + |needle|];
    assert OccursAt(needle, tail, i - 1);
  }

  lemma SubstringInLeft(x: string, a: string, b: string)
    requires IsSubstring(x, a)
    ensures IsSubstring(x, a + b)
  {
    var i :| OccursAt(x, a, i);
    assert (a + b)[i..i + |x|] == x;
    assert OccursAt(x, a + b, i);
  }

  lemma SubstringInRight(x: string, a: string, b: string)
    requires IsSubstring(x, b)
    ensures IsSubstring(x, a + b)
  {
    var i :| OccursAt(x, b, i);
    assert (a + b)[|a| + i..|a| + i + |x|] == x;
    assert OccursAt(x, a + b, |a| + i);
  }

  lemma SubstringOfItself(x: string)
    ensures IsSubstring(x, x)
  {
    assert OccursAt(x, x, 0);
  }

  /** `sep.join(parts)`. */
  function Join(sep: string, parts: seq<string>): string
    decreases |parts|
  {
    if |parts| == 0 then ""
    else if |parts| == 1 then parts[0]
    else parts[0] + sep + Join(sep, parts[1..])
  }

  /** Every part occurs in the joined string. */
  lemma {:induction false} JoinContainsParts(sep: string, parts: seq<string>, k: nat)
    requires k < |parts|
    ensures IsSubstring(parts[k], Join(sep, parts))
    decreases |parts|
  {
    if |parts| == 1 {
      SubstringOfItself(parts[0]);
    } else if k == 0 {
      SubstringOfItself(parts[0]);
      SubstringInLeft(parts[0], parts[0], sep + Join(sep, parts[1..]));
      assert parts[0] + sep + Join(sep, parts[1..]) == parts[0] + (sep + Join(sep, parts[1..]));
    } else {
      JoinContainsParts(sep, parts[1..], k - 1);
      SubstringInRight(parts[k], parts[0] + sep, Join(sep, parts[1..]));
    }
  }

  /**
   * Python's `a <= b` on strings: code point by code point, a proper
   * prefix first. `sorted` on the paths of one directory orders them so.
   */
  predicate LexLe(a: string, b: string)
    decreases |a|
  {
    |a| == 0 || (|b| > 0 && (a[0] < b[0] || (a[0] == b[0] && LexLe(a[1..], b[1..]))))
  }

  lemma {:induction false} LexLeTotal(a: string, b: string)
    ensures LexLe(a, b) || LexLe(b, a)
    decreases |a|
  {
    if |a| > 0 && |b| > 0 && a[0] == b[0] {
      LexLeTotal(a[1..], b[1..]);
    }
  }

  lemma {:induction false} LexLeTransitive(a: string, b: string, c: string)
    requires LexLe(a, b) && LexLe(b, c)
    ensures LexLe(a, c)
    decreases |a|
  {
    if |a| > 0 && a[0] == b[0] && b[0] == c[0] {
      LexLeTransitive(a[1..], b[1..], c[1..]);
    }
  }

  lemma {:induction false} LexLeAntisymmetric(a: string, b: string)
    requires LexLe(a, b) && LexLe(b, a)
    ensures a == b
    decreases |a|
  {
    if |a| > 0 {
      LexLeAntisymmetric(a[1..], b[1..]);
      assert a == [a[0]] + a[1..];
      assert b == [b[0]] + b[1..];
    }
  }

  /** `sorted(names)[0]`: the first name in lexicographic order. */
  function Smallest(names: seq<string>): string
    requires |names| > 0
    decreases |names|
  {
    if |names| == 1 then names[0]
    else
      var rest := Smallest(names[1..]);
      if LexLe(names[0], rest) then names[0] else rest
  }

  /** Smallest picks a name of the list that sorts before or equal to every name. */
  lemma {:induction false} SmallestIsLeast(names: seq<string>)
    requires |names| > 0
    ensures Smallest(names) in names
    ensures forall n :: n in names ==> LexLe(Smallest(names), n)
    decreases |names|
  {
    if |names| == 1 {
      LexLeTotal(names[0], names[0]);
    } else {
      var rest := Smallest(names[1..]);
      SmallestIsLeast(names[1..]);
      var m := Smallest(names);
      if !LexLe(names[0], rest) {
        LexLeTotal(names[0], rest);
      }
      forall n | n in names
        ensures LexLe(m, n)
      {
        if n == names[0] {
          LexLeTotal(n, n);
        } else {
          assert n in names[1..];
          if m == names[0] {
            LexLeTransitive(names[0], rest, n);
          }
        }
      }
    }
  }

  /** The least name is unique, so Smallest is exactly the head of the sorted list. */
  lemma SmallestIsUnique(names: seq<string>, n: string)
    requires |names| > 0
    requires n in names && forall m :: m in names ==> LexLe(n, m)
    ensures n == Smallest(names)
  {
    SmallestIsLeast(names);
    LexLeAntisymmetric(n, Smallest(names));
  }
}
