/**
 Printed fingerprints and their comparison: a geometry digest that must agree, and luma samples that
 may differ a little. A digest is its bytes; how it is computed is not part of the model.
 */
module FingerprintMatch {
  import opened Common
  import opened Fingerprint

  const VISUAL := ":visual:"
  const GEOMETRY := "geometry:"
  const DIGITS := "0123456789abcdef"

  function Hex(bytes: seq<Byte>): string {
    if bytes == [] then "" else [DIGITS[bytes[0] / 16], DIGITS[bytes[0] % 16]] + Hex(bytes[1..])
  }

  function Digit(c: char): Option<nat> {
    if '0' <= c <= '9' then Some(c as int - '0' as int)
    else if 'a' <= c <= 'f' then Some(c as int - 'a' as int + 10)
    else if 'A' <= c <= 'F' then Some(c as int - 'A' as int + 10)
    else None
  }

  function Unhex(s: string): Option<seq<Byte>> {
    if s == "" then Some([])
    else if |s| == 1 then None
    else if Digit(s[0]).None? || Digit(s[1]).None? then None
    else
      var rest := Unhex(s[2..]);
      if rest.None? then None else Some([(Digit(s[0]).value * 16 + Digit(s[1]).value) as Byte] + rest.value)
  }

  const UPPER := "0123456789ABCDEF"

  /** Both cases of every hexadecimal digit are read, and nothing else. */
  lemma DigitExactly(c: char)
    ensures Digit(c).Some? ==> Digit(c).value < 16 && (DIGITS[Digit(c).value] == c || UPPER[Digit(c).value] == c)
    ensures forall n :: 0 <= n < 16 && (DIGITS[n] == c || UPPER[n] == c) ==> Digit(c) == Some(n)
  {
  }

  lemma {:induction false} UnhexExactly(s: string)
    ensures Unhex(s).Some? <==> |s| % 2 == 0 && forall i :: 0 <= i < |s| ==> Digit(s[i]).Some?
    ensures Unhex(s).Some? ==> 2 * |Unhex(s).value| == |s|
  {
    if |s| > 1 {
      UnhexExactly(s[2..]);
      assert forall i :: 2 <= i < |s| ==> s[i] == s[2..][i - 2];
    }
  }

  lemma {:induction false} UnhexHex(bytes: seq<Byte>)
    ensures Unhex(Hex(bytes)) == Some(bytes)
  {
    if bytes != [] {
      UnhexHex(bytes[1..]);
      DigitOf(bytes[0] / 16);
      DigitOf(bytes[0] % 16);
      hide Digit;
      assert Hex(bytes)[2..] == Hex(bytes[1..]);
      assert bytes[0] as int / 16 * 16 + bytes[0] as int % 16 == bytes[0];
      assert bytes == [bytes[0]] + bytes[1..];
    }
  }

  lemma DigitOf(n: nat)
    requires n < 16
    ensures Digit(DIGITS[n]) == Some(n) && DIGITS[n] != ':' && DIGITS[n] != 'v'
  {
  }

  lemma {:induction false} HexPlain(bytes: seq<Byte>, i: nat)
    requires i < |Hex(bytes)|
    ensures Hex(bytes)[i] != ':' && Hex(bytes)[i] != 'v'
  {
    if i < 2 {
      DigitOf(bytes[0] / 16);
      DigitOf(bytes[0] % 16);
    } else {
      HexPlain(bytes[1..], i - 2);
    }
  }

  /** The text before and after the first separator. */
  function SplitVisual(s: string): Option<(string, string)> {
    if VISUAL <= s then Some(("", s[|VISUAL|..]))
    else if s == "" then None
    else
      var rest := SplitVisual(s[1..]);
      if rest.None? then None else Some(([s[0]] + rest.value.0, rest.value.1))
  }

  /** Where no separator begins inside `a`, splitting goes on behind it. */
  lemma {:induction false} SplitSkips(a: string, b: string)
    requires forall i :: 0 <= i < |a| ==> !(VISUAL <= (a + b)[i..])
    ensures SplitVisual(a + b) ==
      if SplitVisual(b).None? then None else Some((a + SplitVisual(b).value.0, SplitVisual(b).value.1))
  {
    if a == "" {
      assert a + b == b;
      if SplitVisual(b).Some? { assert a + SplitVisual(b).value.0 == SplitVisual(b).value.0; }
    } else {
      assert (a + b)[0..] == a + b && (a + b)[1..] == a[1..] + b;
      forall i | 0 <= i < |a[1..]| ensures !(VISUAL <= (a[1..] + b)[i..]) {
        assert (a[1..] + b)[i..] == (a + b)[i + 1..];
      }
      SplitSkips(a[1..], b);
      if SplitVisual(b).Some? {
        assert [a[0]] + (a[1..] + SplitVisual(b).value.0) == a + SplitVisual(b).value.0;
      }
    }
  }

  datatype Reading = Reading(digest: seq<Byte>, visual: Option<seq<Byte>>)

  function Print(x: Reading): string {
    GEOMETRY + Hex(x.digest) + (if x.visual.None? then "" else VISUAL + Hex(x.visual.value))
  }

  /** No separator begins before position `n`. */
  ghost predicate NoneBefore(text: string, n: nat)
    requires n <= |text| + 1
  {
    forall i :: 0 <= i < n ==> !(":visual:" <= text[i..])
  }

  lemma NoneBeforeStep(text: string, n: nat)
    requires text != "" && !(":visual:" <= text) && n <= |text| && NoneBefore(text[1..], n)
    ensures NoneBefore(text, n + 1)
  {
    assert text[0..] == text;
    forall i | 0 <= i < n + 1 ensures !(":visual:" <= text[i..]) {
      if i > 0 { assert text[i..] == text[1..][i - 1..]; }
    }
  }

  /** The text is split at the first separator, and only if there is one. */
  lemma {:induction false} SplitExactly(text: string)
    ensures SplitVisual(text).Some? ==>
      var (a, b) := SplitVisual(text).value; text == a + ":visual:" + b && NoneBefore(text, |a|)
    ensures SplitVisual(text).None? ==> NoneBefore(text, |text| + 1)
  {
    if VISUAL <= text {
      assert text == "" + VISUAL + text[|VISUAL|..];
    } else if text == "" {
      assert NoneBefore(text, 1);
    } else {
      SplitExactly(text[1..]);
      var rest := SplitVisual(text[1..]);
      assert SplitVisual(text) == if rest.None? then None else Some(([text[0]] + rest.value.0, rest.value.1));
      hide NoneBefore, SplitVisual;
      NoneBeforeStep(text, if rest.Some? then |rest.value.0| else |text|);
      if rest.Some? { OneMoreInFront(text, rest.value.0, ":visual:", rest.value.1); }
    }
  }

  lemma OneMoreInFront(text: string, a: string, middle: string, b: string)
    requires text != "" && text[1..] == a + middle + b
    ensures text == [text[0]] + a + middle + b
  {
    assert text == [text[0]] + text[1..];
  }

  lemma NoSeparatorInside(digest: seq<Byte>, b: string, i: nat)
    requires i < |GEOMETRY + Hex(digest)| && (b == "" || b[0] == ':')
    ensures !(VISUAL <= (GEOMETRY + Hex(digest) + b)[i..])
  {
    var a := GEOMETRY + Hex(digest);
    var t := (a + b)[i..];
    if VISUAL <= t {
      assert t[0] == ':' && t[1] == 'v';
      assert (a + b)[i] == ':' && (a + b)[i + 1] == 'v';
      if i >= |GEOMETRY| { HexPlain(digest, i - |GEOMETRY|); }
      if i + 1 >= |GEOMETRY| && i + 1 < |a| { HexPlain(digest, i + 1 - |GEOMETRY|); }
    }
  }

  /** Splitting a printed fingerprint gives back exactly what was printed. */
  lemma SplitPrint(x: Reading)
    ensures SplitVisual(Print(x)) ==
      if x.visual.None? then None else Some((GEOMETRY + Hex(x.digest), Hex(x.visual.value)))
  {
    var a := GEOMETRY + Hex(x.digest);
    var b := if x.visual.None? then "" else VISUAL + Hex(x.visual.value);
    forall i | 0 <= i < |a| ensures !(VISUAL <= (a + b)[i..]) { NoSeparatorInside(x.digest, b, i); }
    SplitSkips(a, b);
    if x.visual.Some? {
      assert VISUAL <= b && b[|VISUAL|..] == Hex(x.visual.value);
      assert SplitVisual(b) == Some(("", Hex(x.visual.value))) && a + "" == a;
    }
  }

  function Difference(a: Byte, b: Byte): nat {
    if a < b then b - a else a - b
  }

  function Total(a: seq<Byte>, b: seq<Byte>): nat
    requires |a| == |b|
  {
    if a == [] then 0 else Total(a[..|a| - 1], b[..|a| - 1]) + Difference(a[|a| - 1], b[|a| - 1])
  }

  function Material(a: seq<Byte>, b: seq<Byte>): nat
    requires |a| == |b|
  {
    if a == [] then 0
    else
      var last := if Difference(a[|a| - 1], b[|a| - 1]) > MATERIAL_DIFFERENCE then 1 else 0;
      Material(a[..|a| - 1], b[..|a| - 1]) + last
  }

  /** Nonempty, equally long, close on average, and materially different in at most a fifth of the samples. */
  predicate Close(a: seq<Byte>, b: seq<Byte>) {
    && a != [] && |a| == |b|
    && Total(a, b) <= MAX_AVERAGE_DIFFERENCE * |a|
    && Material(a, b) * MATERIAL_DENOMINATOR <= |a|
  }

  lemma TotalIsSum(a: seq<Byte>, b: seq<Byte>, x: Byte, y: Byte)
    requires |a| == |b|
    ensures Total([], []) == 0
    ensures Total(a + [x], b + [y]) == Total(a, b) + if x < y then y - x else x - y
  {
    assert (a + [x])[..|a|] == a && (b + [y])[..|a|] == b;
  }

  ghost function FarApart(a: seq<Byte>, b: seq<Byte>): set<int>
    requires |a| == |b|
  {
    set i | 0 <= i < |a| && (a[i] as int - b[i] as int > 24 || b[i] as int - a[i] as int > 24)
  }

  lemma {:induction false} MaterialIsCount(a: seq<Byte>, b: seq<Byte>)
    requires |a| == |b|
    ensures Material(a, b) == |FarApart(a, b)|
  {
    if a != [] {
      var n := |a| - 1;
      MaterialIsCount(a[..n], b[..n]);
      var far := if Difference(a[n], b[n]) > 24 then {n} else {};
      assert FarApart(a, b) == FarApart(a[..n], b[..n]) + far;
    }
  }

  /** Close means a mean difference of at most 8, with at most every fifth sample more than 24 apart. */
  lemma CloseExactly(a: seq<Byte>, b: seq<Byte>)
    ensures Close(a, b) <==> a != [] && |a| == |b| && Total(a, b) <= 8 * |a| && 5 * |FarApart(a, b)| <= |a|
  {
    if |a| == |b| { MaterialIsCount(a, b); }
  }

  predicate Matches(expected: string, current: string) {
    var e, c := SplitVisual(expected), SplitVisual(current);
    if e.None? then expected == current
    else if c.None? || e.value.0 != c.value.0 then false
    else
      var x, y := Unhex(e.value.1), Unhex(c.value.1);
      x.Some? && y.Some? && Close(x.value, y.value)
  }

  method FingerprintsMatch(expected: string, current: string) returns (r: bool)
    ensures r == Matches(expected, current)
  {
    var e := SplitVisual(expected);
    if e.None? { return expected == current; }
    var c := SplitVisual(current);
    if c.None? { return false; }
    if e.value.0 != c.value.0 { return false; }
    var x, y := Unhex(e.value.1), Unhex(c.value.1);
    if x.None? || y.None? { return false; }
    if x.value == [] || |x.value| != |y.value| { return false; }
    var total, material := 0, 0;
    for i := 0 to |x.value|
      invariant total == Total(x.value[..i], y.value[..i]) && material == Material(x.value[..i], y.value[..i])
    {
      var difference := Difference(x.value[i], y.value[i]);
      assert x.value[..i + 1][..i] == x.value[..i] && y.value[..i + 1][..i] == y.value[..i];
      total := total + difference;
      if difference > MATERIAL_DIFFERENCE { material := material + 1; }
    }
    assert x.value[..|x.value|] == x.value && y.value[..|x.value|] == y.value;
    r := total <= MAX_AVERAGE_DIFFERENCE * |x.value| && material * MATERIAL_DENOMINATOR <= |x.value|;
  }

  lemma {:induction false} CloseSymmetric(a: seq<Byte>, b: seq<Byte>)
    requires |a| == |b|
    ensures Total(a, b) == Total(b, a) && Material(a, b) == Material(b, a)
  {
    if a != [] { CloseSymmetric(a[..|a| - 1], b[..|a| - 1]); }
  }

  /** On any two texts, in either order. */
  lemma MatchSymmetric(a: string, b: string)
    ensures Matches(a, b) == Matches(b, a)
  {
    var e, c := SplitVisual(a), SplitVisual(b);
    if e.Some? && c.Some? {
      var x, y := Unhex(e.value.1), Unhex(c.value.1);
      if x.Some? && y.Some? && |x.value| == |y.value| { CloseSymmetric(x.value, y.value); }
    }
  }

  /** Printed fingerprints match exactly when the digests agree and neither has an image or the images are close. */
  lemma MatchExactly(x: Reading, y: Reading)
    ensures Matches(Print(x), Print(y)) <==>
      && x.digest == y.digest
      && ((x.visual.None? && y.visual.None?) ||
          (x.visual.Some? && y.visual.Some? && Close(x.visual.value, y.visual.value)))
  {
    SplitPrint(x);
    SplitPrint(y);
    UnhexHex(x.digest);
    UnhexHex(y.digest);
    assert (GEOMETRY + Hex(x.digest))[|GEOMETRY|..] == Hex(x.digest);
    assert (GEOMETRY + Hex(y.digest))[|GEOMETRY|..] == Hex(y.digest);
    if x.visual.Some? { UnhexHex(x.visual.value); }
    if y.visual.Some? { UnhexHex(y.visual.value); }
    if x.visual.None? && y.visual.None? {
      assert GEOMETRY + Hex(x.digest) + "" == GEOMETRY + Hex(x.digest);
      assert GEOMETRY + Hex(y.digest) + "" == GEOMETRY + Hex(y.digest);
    }
  }

  lemma {:induction false} NoDifference(a: seq<Byte>)
    ensures Total(a, a) == 0 && Material(a, a) == 0
  {
    if a != [] { NoDifference(a[..|a| - 1]); }
  }

  /** A fingerprint matches itself unless it was taken of an image without pixels. */
  lemma MatchesItselfExactly(digest: seq<Byte>, image: Option<Image>)
    ensures var x := Reading(digest, if image.None? then None else Some(Signature(image.value)));
      Matches(Print(x), Print(x)) <==> image.None? || (image.value.width > 0 && image.value.height > 0)
  {
    var x := Reading(digest, if image.None? then None else Some(Signature(image.value)));
    MatchExactly(x, x);
    if image.Some? { NoDifference(Signature(image.value)); }
  }
}
