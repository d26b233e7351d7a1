/** Splitting typed text into bounded UTF-16 packets for the native input actors. */
module InputText {
  const PACKET: nat := 20

  type Unit = u: int | 0 <= u < 0x1_0000

  predicate High(u: Unit) {
    0xD800 <= u <= 0xDBFF
  }

  predicate Low(u: Unit) {
    0xDC00 <= u <= 0xDFFF
  }

  /** Well-formed UTF-16 as in section 2 of RFC 2781: surrogates come in pairs, high before low. */
  ghost predicate WellFormed(units: seq<Unit>) {
    if units == [] then true
    else if High(units[0]) then |units| > 1 && Low(units[1]) && WellFormed(units[2..])
    else !Low(units[0]) && WellFormed(units[1..])
  }

  /** A Unicode scalar value. */
  type Scalar = n: int | 0 <= n < 0xD800 || 0xE000 <= n < 0x11_0000

  function Units(n: Scalar): seq<Unit> {
    if n < 0x1_0000 then [n] else [0xD800 + (n - 0x1_0000) / 0x400, 0xDC00 + (n - 0x1_0000) % 0x400]
  }

  function Encode(text: seq<Scalar>): seq<Unit> {
    if text == [] then [] else Units(text[0]) + Encode(text[1..])
  }

  lemma {:induction false} EncodedIsWellFormed(text: seq<Scalar>)
    ensures WellFormed(Encode(text))
  {
    if text != [] {
      EncodedIsWellFormed(text[1..]);
      var rest := Encode(text[1..]);
      if text[0] < 0x1_0000 {
        assert Encode(text)[1..] == rest;
      } else {
        assert Encode(text)[2..] == rest;
      }
    }
  }

  lemma {:induction false} WellFormedIsEncoded(units: seq<Unit>) returns (text: seq<Scalar>)
    requires WellFormed(units)
    ensures Encode(text) == units
  {
    if units == [] {
      text := [];
    } else if High(units[0]) {
      var rest := WellFormedIsEncoded(units[2..]);
      var n: Scalar := 0x1_0000 + (units[0] as int - 0xD800) * 0x400 + (units[1] as int - 0xDC00);
      assert Units(n) == [units[0], units[1]];
      text := [n] + rest;
      assert text[1..] == rest && units == [units[0], units[1]] + units[2..];
    } else {
      var rest := WellFormedIsEncoded(units[1..]);
      var n: Scalar := units[0];
      text := [n] + rest;
      assert text[1..] == rest && units == [units[0]] + units[1..];
    }
  }

  /** Well-formed text is exactly what some sequence of scalar values encodes to. */
  lemma WellFormedExactly(units: seq<Unit>)
    ensures WellFormed(units) <==> exists text: seq<Scalar> :: Encode(text) == units
  {
    if WellFormed(units) {
      var text := WellFormedIsEncoded(units);
      assert Encode(text) == units;
    }
    if text: seq<Scalar> :| Encode(text) == units { EncodedIsWellFormed(text); }
  }

  ghost function Flat(packets: seq<seq<Unit>>): seq<Unit> {
    if packets == [] then [] else Flat(packets[..|packets| - 1]) + packets[|packets| - 1]
  }

  ghost predicate AllWellFormed(packets: seq<seq<Unit>>) {
    forall i :: 0 <= i < |packets| ==> WellFormed(packets[i])
  }

  /** After a well-formed beginning, the whole is well-formed exactly when the rest is. */
  lemma {:induction false} WellFormedAppend(a: seq<Unit>, b: seq<Unit>)
    requires WellFormed(a)
    ensures WellFormed(a + b) <==> WellFormed(b)
  {
    if a == [] {
      assert a + b == b;
    } else if High(a[0]) {
      WellFormedAppend(a[2..], b);
      assert (a + b)[2..] == a[2..] + b;
    } else {
      WellFormedAppend(a[1..], b);
      assert (a + b)[1..] == a[1..] + b;
    }
  }

  /** Cutting well-formed text anywhere but behind a high surrogate leaves two well-formed halves. */
  lemma {:induction false} CutWellFormed(units: seq<Unit>, k: nat)
    requires WellFormed(units) && k <= |units| && (k > 0 ==> !High(units[k - 1]))
    ensures WellFormed(units[..k]) && WellFormed(units[k..])
  {
    if k == 0 {
      assert units[0..] == units;
    } else if High(units[0]) {
      CutWellFormed(units[2..], k - 2);
      assert units[2..][..k - 2] == units[..k][2..] && units[2..][k - 2..] == units[k..];
    } else {
      CutWellFormed(units[1..], k - 1);
      assert units[1..][..k - 1] == units[..k][1..] && units[1..][k - 1..] == units[k..];
    }
  }

  lemma {:induction false} FlatWellFormed(packets: seq<seq<Unit>>)
    requires AllWellFormed(packets)
    ensures WellFormed(Flat(packets))
  {
    if packets != [] {
      FlatWellFormed(packets[..|packets| - 1]);
      WellFormedAppend(Flat(packets[..|packets| - 1]), packets[|packets| - 1]);
    }
  }

  /**
   Nonempty packets of at most 20 units, only the last shorter than 19, that join up to the input. All
   of them are well-formed exactly when the input is: no surrogate pair is ever torn.
   */
  method Chunks(units: seq<Unit>) returns (packets: seq<seq<Unit>>)
    ensures Flat(packets) == units
    ensures forall i :: 0 <= i < |packets| ==> 0 < |packets[i]| <= 20
    ensures forall i :: 0 <= i < |packets| - 1 ==> |packets[i]| >= 19
    ensures WellFormed(units) <==> AllWellFormed(packets)
  {
    hide WellFormed;
    packets := [];
    var start := 0;
    assert units[0..] == units;
    while start != |units|
      invariant 0 <= start <= |units| && Flat(packets) == units[..start]
      invariant forall i :: 0 <= i < |packets| ==> 0 < |packets[i]| <= PACKET
      invariant forall i :: 0 <= i < |packets| - 1 ==> |packets[i]| >= PACKET - 1
      invariant packets != [] && |packets[|packets| - 1]| < PACKET - 1 ==> start == |units|
      invariant WellFormed(units) ==> AllWellFormed(packets) && WellFormed(units[start..])
      decreases |units| - start
    {
      var end := if start + 20 < |units| then start + 20 else |units|;
      if end < |units| && High(units[end - 1]) {
        end := end - 1;
      }
      if WellFormed(units) { NextPacket(units, start, end); }
      assert (packets + [units[start..end]])[..|packets|] == packets;
      assert units[..start] + units[start..end] == units[..end];
      packets := packets + [units[start..end]];
      start := end;
    }
    assert units[..start] == units;
    if AllWellFormed(packets) { FlatWellFormed(packets); }
  }

  /** The end the loop picks never falls behind a high surrogate of well-formed text. */
  lemma NextPacket(units: seq<Unit>, start: nat, end: nat)
    requires start < end <= |units| && WellFormed(units[start..])
    requires end < |units| ==> !High(units[end - 1]) || High(units[end])
    ensures WellFormed(units[start..end]) && WellFormed(units[end..])
  {
    var rest, k := units[start..], end - start;
    assert rest[..k] == units[start..end] && rest[k..] == units[end..];
    hide WellFormed;
    if k == |rest| {
      assert rest[..k] == rest;
    } else {
      NoDoubleHigh(rest, k - 1);
    }
    CutOrAll(rest, k);
  }

  lemma CutOrAll(rest: seq<Unit>, k: nat)
    requires WellFormed(rest) && 0 < k <= |rest| && (k == |rest| || !High(rest[k - 1]))
    ensures WellFormed(rest[..k]) && WellFormed(rest[k..])
  {
    if k == |rest| { assert rest[..k] == rest; } else { CutWellFormed(rest, k); }
  }

  lemma {:induction false} NoDoubleHigh(units: seq<Unit>, i: nat)
    requires WellFormed(units) && i + 1 < |units|
    ensures !(High(units[i]) && High(units[i + 1]))
  {
    if i == 0 {
    } else if High(units[0]) {
      if i >= 2 { NoDoubleHigh(units[2..], i - 2); }
    } else {
      NoDoubleHigh(units[1..], i - 1);
    }
  }
}
