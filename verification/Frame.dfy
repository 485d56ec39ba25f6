/** The two-byte length frame around the encoded key configuration, as the gateway writes it and the client reads it. */
module Frame {
  import opened Text

  datatype Unframed = Payload(bytes: seq<byte>) | TooShort | ShorterThanDeclared

  /** Bitwise or of non-negative integers. */
  function Or(a: nat, b: nat): nat {
    if a == 0 then b
    else if b == 0 then a
    else 2 * Or(a / 2, b / 2) + if a % 2 == 1 || b % 2 == 1 then 1 else 0
  }

  function Power2(k: nat): nat {
    if k == 0 then 1 else 2 * Power2(k - 1)
  }

  function ShiftLeft(a: nat, k: nat): nat {
    if k == 0 then a else 2 * ShiftLeft(a, k - 1)
  }

  /** Or with a number shifted clear of the other is addition. */
  lemma {:induction false} OrOfShifted(high: nat, low: nat, k: nat)
    requires low < Power2(k)
    ensures Or(ShiftLeft(high, k), low) == ShiftLeft(high, k) + low
  {
    if k > 0 {
      OrOfShifted(high, low / 2, k - 1);
    }
  }

  /** The message: the length modulo 2^16 in two bytes, big end first, and the payload. */
  function Framed(payload: seq<byte>): seq<byte> {
    var length := |payload| % 0x10000;
    [length / 0x100, length % 0x100] + payload
  }

  /** Fills a fresh buffer in place, as the gateway does. */
  method WriteFrame(payload: seq<byte>) returns (buf: array<byte>)
    ensures fresh(buf) && buf[..] == Framed(payload)
    ensures buf.Length == 2 + |payload| && buf[2..] == payload
    ensures 0x100 * (buf[0] as int) + buf[1] as int == |payload| % 0x10000
  {
    var length := |payload| % 0x10000;  // uint16
    buf := new byte[2 + |payload|](_ => 0);
    buf[0], buf[1] := length / 0x100, length % 0x100;
    var i := 0;
    while i < |payload|
      invariant i <= |payload|
      invariant buf[0] == length / 0x100 && buf[1] == length % 0x100
      invariant forall j :: 0 <= j < i ==> buf[2 + j] == payload[j]
    {
      buf[2 + i] := payload[i];
      i := i + 1;
    }
    assert buf[2..] == payload;
    assert buf[..] == [buf[0], buf[1]] + buf[2..];
  }

  function DeclaredLength(b: seq<byte>): nat
    requires |b| >= 2
  {
    Or(ShiftLeft(b[0], 8), b[1])
  }

  /** The client: everything behind the prefix, provided the declared length is there. */
  function Unframe(b: seq<byte>): Unframed {
    if |b| < 2 then TooShort
    else if |b| < 2 + DeclaredLength(b) then ShorterThanDeclared
    else Payload(b[2..])
  }

  lemma Declared(b: seq<byte>)
    requires |b| >= 2
    ensures DeclaredLength(b) == 0x100 * (b[0] as int) + b[1] as int
  {
    var high: nat := b[0];
    assert Power2(8) == 0x100;
    assert ShiftLeft(high, 1) == 2 * ShiftLeft(high, 0) == 2 * high;
    assert ShiftLeft(high, 2) == 2 * ShiftLeft(high, 1);
    assert ShiftLeft(high, 4) == 4 * ShiftLeft(high, 2);
    assert ShiftLeft(high, 6) == 4 * ShiftLeft(high, 4);
    assert ShiftLeft(high, 8) == 4 * ShiftLeft(high, 6);
    OrOfShifted(b[0], b[1], 8);
  }

  /** The client takes a message as long as its first two bytes say, big end first, and passes on all that follows them. */
  lemma UnframeMeaning(b: seq<byte>, payload: seq<byte>)
    ensures Unframe(b) == Payload(payload) <==>
            |b| >= 2 && |payload| >= 0x100 * (b[0] as int) + b[1] as int && b == b[..2] + payload
    ensures Unframe(b) == TooShort <==> |b| < 2
  {
    if |b| >= 2 {
      Declared(b);
      assert b == b[..2] + b[2..];
    }
  }

  /** The payload comes back whole, whatever its length, because the client does not cut at the declared one. */
  lemma FrameRoundTrip(payload: seq<byte>)
    ensures Unframe(Framed(payload)) == Payload(payload)
  {
    Declared(Framed(payload));
  }

  /** A strict prefix is refused exactly when it stops short of the length modulo 2^16. */
  lemma PrefixRefused(payload: seq<byte>, n: nat)
    requires n < 2 + |payload|
    ensures Unframe(Framed(payload)[..n]).Payload? <==> n >= 2 + |payload| % 0x10000
  {
    var prefix := Framed(payload)[..n];
    if n >= 2 {
      Declared(prefix);
    }
  }

  /** So every truncation is caught if and only if the payload's length fits in the prefix. */
  lemma TruncationCaughtIff(payload: seq<byte>)
    ensures (forall n :: 0 <= n < 2 + |payload| ==> !Unframe(Framed(payload)[..n]).Payload?) <==> |payload| <= 0xFFFF
  {
    forall n | 0 <= n < 2 + |payload|
      ensures Unframe(Framed(payload)[..n]).Payload? <==> n >= 2 + |payload| % 0x10000
    {
      PrefixRefused(payload, n);
    }
    if |payload| > 0xFFFF {
      var n := 2 + |payload| % 0x10000;
      assert Unframe(Framed(payload)[..n]).Payload?;
    }
  }
}
