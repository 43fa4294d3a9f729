/** String operations the portfolio filter relies on: lower-casing, substring
    containment, joining a list with a separator and the decimal rendering of
    a number. Lower-casing is restricted to ASCII letters. */
module Text {

  /** ASCII lower-casing of one character. */
  function LowerChar(c: char): (r: char)
    ensures 'A' <= c <= 'Z' ==> r as int == c as int + 32
    ensures !('A' <= c <= 'Z') ==> r == c
    ensures !('A' <= r <= 'Z')
  {
    if 'A' <= c <= 'Z' then (c as int + 32) as char else c
  }

  /** The model of `String.prototype.toLowerCase`, restricted to ASCII. */
  function Lower(s: string): (r: string)
    ensures |r| == |s|
    ensures forall i :: 0 <= i < |s| ==> r[i] == LowerChar(s[i])
  {
    if s == [] then [] else [LowerChar(s[0])] + Lower(s[1..])
  }

  /** Lower-casing works character by character, so it distributes over concatenation. */
  lemma {:induction false} LowerAppend(a: string, b: string)
    ensures Lower(a + b) == Lower(a) + Lower(b)
    decreases |a|
  {
    if a == [] {
      assert a + b == b;
    } else {
      assert (a + b)[0] == a[0];
      assert (a + b)[1..] == a[1..] + b;
      LowerAppend(a[1..], b);
    }
  }

  /** `text` holds `term` starting at position `i`. */
  predicate OccursAt(text: string, term: string, i: nat)
  {
    i + |term| <= |text| && text[i..i + |term|] == term
  }

  /** The model of `String.prototype.includes`: is `term` a contiguous part of `text`? */
  function Contains(text: string, term: string): (r: bool)
    ensures r <==> exists i: nat :: OccursAt(text, term, i)
    decreases |text|
  {
    if |term| > |text| then
      assert forall i: nat :: !OccursAt(text, term, i);
      false
    else if text[..|term|] == term then
      assert OccursAt(text, term, 0);
      true
    else
      var rest := Contains(text[1..], term);
      ShiftOccurrence(text, term);
      rest
  }

  /** An occurrence past the first position of `text` is an occurrence in `text[1..]`, and back. */
  lemma ShiftOccurrence(text: string, term: string)
    requires text != []
    requires !OccursAt(text, term, 0)
    ensures (exists i: nat :: OccursAt(text, term, i)) <==> (exists j: nat :: OccursAt(text[1..], term, j))
  {
    if i: nat :| OccursAt(text, term, i) {
      assert i > 0;
      assert text[1..][i - 1..i - 1 + |term|] == text[i..i + |term|];
      assert OccursAt(text[1..], term, i - 1);
    }
    if j: nat :| OccursAt(text[1..], term, j) {
      assert text[j + 1..j + 1 + |term|] == text[1..][j..j + |term|];
      assert OccursAt(text, term, j + 1);
    }
  }

  /** A part of a part is a part: `Contains` is transitive. */
  lemma {:induction false} ContainsTransitive(a: string, b: string, c: string)
    requires Contains(a, b) && Contains(b, c)
    ensures Contains(a, c)
  {
    var i: nat :| OccursAt(a, b, i);
    var j: nat :| OccursAt(b, c, j);
    forall k | 0 <= k < |c|
      ensures a[i + j + k] == c[k]
    {
      assert c[k] == b[j..j + |c|][k] == b[j + k];
      assert b[j + k] == a[i..i + |b|][j + k] == a[i + j + k];
    }
    assert a[i + j..i + j + |c|] == c;
    assert OccursAt(a, c, i + j);
  }

  /** What either part contains, their concatenation contains. */
  lemma ContainsConcat(x: string, y: string, term: string)
    ensures Contains(x, term) || Contains(y, term) ==> Contains(x + y, term)
  {
    if i: nat :| OccursAt(x, term, i) {
      assert (x + y)[i..i + |term|] == x[i..i + |term|];
      assert OccursAt(x + y, term, i);
    }
    if j: nat :| OccursAt(y, term, j) {
      assert (x + y)[|x| + j..|x| + j + |term|] == y[j..j + |term|];
      assert OccursAt(x + y, term, |x| + j);
    }
  }

  /** Appending to a text keeps everything it contains. */
  lemma ContainsExtend(x: string, y: string)
    ensures forall term :: Contains(x, term) ==> Contains(x + y, term)
  {
    forall term | Contains(x, term)
      ensures Contains(x + y, term)
    {
      ContainsConcat(x, y, term);
    }
  }

  /** The middle piece of a concatenation is contained in it. */
  lemma ContainsMiddle(x: string, y: string, z: string)
    ensures Contains(x + y + z, y)
  {
    assert (x + y + z)[|x|..|x| + |y|] == y;
    assert OccursAt(x + y + z, y, |x|);
  }

  /** The total length of a list of strings. */
  function TotalLength(xs: seq<string>): nat
    decreases |xs|
  {
    if xs == [] then 0 else |xs[0]| + TotalLength(xs[1..])
  }

  /** The model of `Array.prototype.join(sep)` on a list of strings: every
      entry, with one separator between each two neighbours and none at the ends. */
  function Join(xs: seq<string>, sep: string): (r: string)
    ensures xs == [] ==> r == ""
    ensures xs != [] ==> |r| == TotalLength(xs) + (|xs| - 1) * |sep|
    ensures xs != [] ==> r[..|xs[0]|] == xs[0]
    decreases |xs|
  {
    if xs == [] then ""
    else if |xs| == 1 then xs[0]
    else xs[0] + sep + Join(xs[1..], sep)
  }

  /** Each element of a list is a contiguous part of the joined string. */
  lemma {:induction false} JoinContainsElement(xs: seq<string>, sep: string, k: nat)
    requires k < |xs|
    ensures Contains(Join(xs, sep), xs[k])
    decreases |xs|
  {
    if |xs| == 1 {
      ContainsMiddle("", xs[0], "");
      assert "" + xs[0] + "" == Join(xs, sep);
    } else if k == 0 {
      ContainsMiddle("", xs[0], sep + Join(xs[1..], sep));
      assert "" + xs[0] + (sep + Join(xs[1..], sep)) == Join(xs, sep);
    } else {
      JoinContainsElement(xs[1..], sep, k - 1);
      ContainsMiddle(xs[0] + sep, Join(xs[1..], sep), "");
      assert xs[0] + sep + Join(xs[1..], sep) + "" == Join(xs, sep);
      ContainsTransitive(Join(xs, sep), Join(xs[1..], sep), xs[k]);
    }
  }

  // ---------------------------------------------------------------------
  // Decimal numbers: `Number.prototype.toString()` for a non-negative integer.

  predicate IsDigit(c: char)
  {
    '0' <= c <= '9'
  }

  function DigitChar(d: nat): (c: char)
    requires d < 10
    ensures IsDigit(c)
  {
    ('0' as int + d) as char
  }

  function DigitValue(c: char): (d: nat)
    requires IsDigit(c)
    ensures d < 10 && DigitChar(d) == c
  {
    c as int - '0' as int
  }

  /** The decimal rendering of a natural number, without leading zeros. */
  function NatToString(n: nat): (s: string)
    ensures |s| >= 1
    ensures forall i :: 0 <= i < |s| ==> IsDigit(s[i])
    decreases n
  {
    if n < 10 then [DigitChar(n)] else NatToString(n / 10) + [DigitChar(n % 10)]
  }

  /** The value of a string of decimal digits. */
  function ParseDecimal(s: string): (n: nat)
    requires forall i :: 0 <= i < |s| ==> IsDigit(s[i])
    decreases |s|
  {
    if s == [] then 0 else ParseDecimal(s[..|s| - 1]) * 10 + DigitValue(s[|s| - 1])
  }

  /** A string as `toString` renders a number: digits only, non-empty, no leading zero. */
  predicate IsCanonicalDecimal(s: string)
  {
    |s| >= 1 && (forall i :: 0 <= i < |s| ==> IsDigit(s[i])) && (|s| > 1 ==> s[0] != '0')
  }

  /** Reading back a rendered number gives the number, and the rendering is canonical. */
  lemma {:induction false} ParseNatToString(n: nat)
    ensures IsCanonicalDecimal(NatToString(n))
    ensures ParseDecimal(NatToString(n)) == n
    decreases n
  {
    var s := NatToString(n);
    if n >= 10 {
      ParseNatToString(n / 10);
      assert s[..|s| - 1] == NatToString(n / 10);
      assert s[0] == NatToString(n / 10)[0];
    }
  }

  /** A canonical decimal with more than one digit has value at least ten. */
  lemma {:induction false} CanonicalValueLowerBound(s: string)
    requires IsCanonicalDecimal(s)
    ensures ParseDecimal(s) >= if |s| > 1 then 10 else 0
    ensures s[0] != '0' ==> ParseDecimal(s) >= 1
    decreases |s|
  {
    if |s| > 1 {
      var t := s[..|s| - 1];
      assert t[0] == s[0];
      CanonicalValueLowerBound(t);
    }
  }

  /** Rendering the value of a canonical decimal gives back the same string. */
  lemma {:induction false} NatToStringParse(s: string)
    requires IsCanonicalDecimal(s)
    ensures NatToString(ParseDecimal(s)) == s
    decreases |s|
  {
    var n := ParseDecimal(s);
    if |s| > 1 {
      var t := s[..|s| - 1];
      assert t[0] == s[0];
      NatToStringParse(t);
      CanonicalValueLowerBound(s);
      assert n / 10 == ParseDecimal(t);
      assert n % 10 == DigitValue(s[|s| - 1]);
      assert s == t + [s[|s| - 1]];
    }
  }

  /** A string is the rendering of `n` exactly when it is canonical and denotes `n`. */
  lemma NatToStringIff(n: nat, s: string)
    ensures s == NatToString(n) <==> IsCanonicalDecimal(s) && ParseDecimal(s) == n
  {
    ParseNatToString(n);
    if IsCanonicalDecimal(s) && ParseDecimal(s) == n {
      NatToStringParse(s);
    }
  }
}
