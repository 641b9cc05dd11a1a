/** The address parser `ipToInt` (main.go): a dotted-quad token becomes a key
    below 2^32, octet 1 in the top byte. The parser is modelled as the Go code
    has it, not as an idealised dotted-quad reader: bytes are not checked to be
    digits (`part[i] - '0'` wraps modulo 256 and is folded in anyway), an
    empty part counts as 0, and the running value of a part is a Go `int`, 64
    bits wide, that wraps around on overflow. */
module Address {
  import opened GoStrings

  const MaxOctet: nat := 255
  const Zero: byte := 48

  /** 2^64 and 2^63: the range of Go's `int` on a 64-bit platform is
      [-2^63, 2^63). */
  const IntModulus: int := 0x1_0000_0000_0000_0000
  const IntLimit: int := 0x8000_0000_0000_0000

  /** The Go `int` that the mathematical value `x` becomes: two's complement
      wrap-around to 64 bits. */
  function WrapInt(x: int): (r: int)
    ensures -IntLimit <= r < IntLimit
    ensures -IntLimit <= x < IntLimit ==> r == x
  {
    var m := x % IntModulus;
    if m < IntLimit then m else m - IntModulus
  }

  /** Values that differ by a multiple of 2^64 wrap to the same `int`. */
  lemma WrapShift(x: int, q: int)
    ensures WrapInt(x + q * IntModulus) == WrapInt(x)
  {
    assert (x + q * IntModulus) % IntModulus == x % IntModulus;
  }

  /** Wrapping the running value before the step `*10 + d` or only after it
      gives the same `int`: Go's wrap-around at every step is wrap-around of
      the exact value at the end. */
  lemma WrapStep(a: int, d: int)
    ensures WrapInt(WrapInt(a) * 10 + d) == WrapInt(a * 10 + d)
  {
    var t := if a % IntModulus < IntLimit then a / IntModulus else a / IntModulus + 1;
    assert WrapInt(a) == a - t * IntModulus;
    assert WrapInt(a) * 10 + d == (a * 10 + d) + (-10 * t) * IntModulus;
    WrapShift(a * 10 + d, -10 * t);
  }

  /** An address key: the 32-bit unsigned encoding of a dotted quad. */
  type Key = k: nat | k < 0x1_0000_0000

  datatype ParseError = InvalidAddress(ip: seq<byte>)

  datatype Result<T> = Ok(value: T) | Err(error: ParseError)

  /** `int(b - '0')`: Go subtracts bytes modulo 256, so a decimal digit gives
      its value and any other byte gives some value from 10 to 255. */
  function Digit(b: byte): (d: byte)
    ensures Zero <= b <= Zero + 9 ==> d == b - Zero
    ensures !(Zero <= b <= Zero + 9) ==> d >= 10
  {
    (b - Zero) % 256
  }

  /** The value `num` that the inner loop of ipToInt folds out of one part:
      `num = num*10 + int(part[i]-'0')` over the bytes in order, from 0, each
      step wrapping as a Go `int`. */
  function PartValue(part: seq<byte>): int
  {
    if part == [] then 0 else WrapInt(PartValue(part[..|part| - 1]) * 10 + Digit(part[|part| - 1]))
  }

  /** The exact value of a part's digit fold, with no wrap-around. */
  function ExactValue(part: seq<byte>): nat
  {
    if part == [] then 0 else ExactValue(part[..|part| - 1]) * 10 + Digit(part[|part| - 1])
  }

  /** The running `int` of the inner loop is the exact value wrapped once to
      64 bits: it equals the exact value below 2^63, and a longer part can
      wrap to a negative value or back into 0..255. */
  lemma {:induction false} PartValueWraps(part: seq<byte>)
    ensures PartValue(part) == WrapInt(ExactValue(part))
  {
    if part != [] {
      var n := |part| - 1;
      PartValueWraps(part[..n]);
      WrapStep(ExactValue(part[..n]), Digit(part[n]));
    }
  }

  /** The value of every part, in order. */
  function Octets(parts: seq<seq<byte>>): (vs: seq<int>)
    ensures |vs| == |parts| && forall i :: 0 <= i < |parts| ==> vs[i] == PartValue(parts[i])
  {
    seq(|parts|, i requires 0 <= i < |parts| => PartValue(parts[i]))
  }

  /** The value of the outer loop's `result = result<<8 | num`, big-endian,
      from 0. */
  function PackOctets(vs: seq<int>): int
  {
    if vs == [] then 0 else PackOctets(vs[..|vs| - 1]) * 256 + vs[|vs| - 1]
  }

  lemma PackFour(vs: seq<int>)
    requires |vs| == 4
    ensures PackOctets(vs) == ((vs[0] * 256 + vs[1]) * 256 + vs[2]) * 256 + vs[3]
  {
    assert vs[..3][..2] == vs[..2];
    assert vs[..2][..1] == vs[..1];
    assert vs[..1][..0] == [];
    assert PackOctets(vs[..1]) == vs[0];
    assert PackOctets(vs[..2]) == vs[0] * 256 + vs[1];
    assert PackOctets(vs[..3]) == (vs[0] * 256 + vs[1]) * 256 + vs[2];
  }

  /** The parts of a token are acceptable: four of them, each with a value
      from 0 to 255. */
  predicate WellFormed(parts: seq<seq<byte>>)
  {
    |parts| == 4 && forall i :: 0 <= i < 4 ==> 0 <= PartValue(parts[i]) <= MaxOctet
  }

  /** What `ipToInt(ip)` returns: the packed key when the token splits on '.'
      into exactly four parts whose values are from 0 to 255, an error
      otherwise. */
  function ParseAddress(ip: seq<byte>): (r: Result<Key>)
    ensures r.Ok? <==> WellFormed(Split(ip, Dot))
    ensures r.Ok? ==>
      var v := Octets(Split(ip, Dot));
      r.value == ((v[0] * 256 + v[1]) * 256 + v[2]) * 256 + v[3]
    ensures r.Err? ==> r.error == InvalidAddress(ip)
  {
    var parts := Split(ip, Dot);
    if WellFormed(parts) then
      PackFour(Octets(parts));
      Ok(PackOctets(Octets(parts)))
    else
      Err(InvalidAddress(ip))
  }

  /** A token that is not four parts is rejected. */
  lemma WrongPartCountRejected(ip: seq<byte>)
    requires |Split(ip, Dot)| != 4
    ensures ParseAddress(ip) == Err(InvalidAddress(ip))
  {
  }

  /** A part whose value is out of range makes the whole token rejected. */
  lemma OutOfRangeRejected(ip: seq<byte>, vs: seq<int>, k: nat)
    requires vs == Octets(Split(ip, Dot)) && k < |vs| && !(0 <= vs[k] <= MaxOctet)
    ensures ParseAddress(ip) == Err(InvalidAddress(ip))
  {
  }

  /** Four parts, all in range, give the packed key. */
  lemma InRangeAccepted(ip: seq<byte>, vs: seq<int>)
    requires vs == Octets(Split(ip, Dot)) && |vs| == 4
    requires forall j :: 0 <= j < 4 ==> 0 <= vs[j] <= MaxOctet
    ensures ParseAddress(ip) == Ok(PackOctets(vs))
  {
  }

  /** The inner loop of ipToInt: the digits of one part folded into `num`. */
  method PartNumber(part: seq<byte>) returns (num: int)
    ensures num == PartValue(part)
  {
    num := 0;
    for i := 0 to |part|
      invariant num == PartValue(part[..i])
    {
      assert part[..i + 1][..i] == part[..i];
      num := WrapInt(num * 10 + Digit(part[i]));
    }
    assert part[..|part|] == part;
  }

  /** ipToInt: the outer loop over the parts, each folded by the inner loop. */
  method IpToInt(ip: seq<byte>) returns (r: Result<Key>)
    ensures r == ParseAddress(ip)
  {
    var parts := Split(ip, Dot);
    if |parts| != 4 {
      WrongPartCountRejected(ip);
      return Err(InvalidAddress(ip));
    }
    ghost var vs := Octets(parts);
    var result: nat := 0;
    for k := 0 to |parts|
      invariant result == PackOctets(vs[..k])
      invariant forall j :: 0 <= j < k ==> 0 <= vs[j] <= MaxOctet
    {
      var num := PartNumber(parts[k]);
      assert num == vs[k];
      if num < 0 || num > MaxOctet {
        OutOfRangeRejected(ip, vs, k);
        return Err(InvalidAddress(ip));
      }
      assert result * 256 + num == PackOctets(vs[..k + 1]) by {
        assert vs[..k + 1][..k] == vs[..k];
      }
      // `result<<8 | num` is `result*256 + num`: num < 256 fits the freed low byte.
      result := result * 256 + num;
    }
    assert vs[..4] == vs;
    InRangeAccepted(ip, vs);
    r := Ok(result);
  }

  /** A token whose number of dots is not three is rejected: Split then gives
      other than four parts. */
  lemma WrongDotCountRejected(ip: seq<byte>)
    requires Occurrences(ip, Dot) != 3
    ensures ParseAddress(ip) == Err(InvalidAddress(ip))
  {
  }

  /** The empty line splits into one part and is rejected. */
  lemma EmptyRejected()
    ensures ParseAddress([]).Err?
  {
    assert Split([], Dot) == [[]];
  }

  /** Division by 256 undoes `q*256 + r` for a byte `r`. */
  lemma ShiftByte(q: int, r: int)
    requires 0 <= r <= MaxOctet
    ensures (q * 256 + r) / 256 == q && (q * 256 + r) % 256 == r
  {
  }

  /** The four bytes of a key, most significant first. */
  function KeyOctets(k: Key): (vs: seq<int>)
    ensures |vs| == 4 && forall i :: 0 <= i < 4 ==> 0 <= vs[i] <= MaxOctet
    ensures PackOctets(vs) == k
  {
    var vs := [k / 256 / 256 / 256, k / 256 / 256 % 256, k / 256 % 256, k % 256];
    PackFour(vs);
    vs
  }

  /** Every accepted key is below 2^32, hence a valid bitmap index, and its
      four bytes are exactly the part values. */
  lemma {:induction false} AcceptedOctets(ip: seq<byte>, k: Key)
    requires ParseAddress(ip) == Ok(k)
    ensures KeyOctets(k) == Octets(Split(ip, Dot))
  {
    var v := Octets(Split(ip, Dot));
    assert 0 <= v[0] <= MaxOctet && 0 <= v[1] <= MaxOctet && 0 <= v[2] <= MaxOctet && 0 <= v[3] <= MaxOctet;
    var x1 := v[0] * 256 + v[1];
    var x2 := x1 * 256 + v[2];
    assert k == x2 * 256 + v[3];
    ShiftByte(x2, v[3]);
    ShiftByte(x1, v[2]);
    ShiftByte(v[0], v[1]);
  }

  /** Decimal digits of `n`, without leading zeros. */
  function Decimal(n: nat): (s: seq<byte>)
    ensures |s| >= 1 && forall i :: 0 <= i < |s| ==> Zero <= s[i] <= Zero + 9
  {
    if n < 10 then [Zero + n] else Decimal(n / 10) + [Zero + n % 10]
  }

  /** Decimal text holds no dot. */
  lemma DecimalDotFree(n: nat)
    ensures Dot !in Decimal(n)
  {
    var s := Decimal(n);
    assert forall i :: 0 <= i < |s| ==> s[i] != Dot;
  }

  /** The usual dotted-quad text of a key. */
  function Format(k: Key): seq<byte>
  {
    var o := KeyOctets(k);
    Join([Decimal(o[0]), Decimal(o[1]), Decimal(o[2]), Decimal(o[3])], Dot)
  }

  /** The decimal text of `n` reads back as `n` wrapped to a Go `int`: `n`
      itself below 2^63, and for larger `n` some value, possibly one from 0 to
      255, that agrees with it modulo 2^64. */
  lemma {:induction false} DecimalValue(n: nat)
    ensures PartValue(Decimal(n)) == WrapInt(n)
  {
    if n >= 10 {
      var s := Decimal(n);
      assert s[..|s| - 1] == Decimal(n / 10);
      assert Digit(s[|s| - 1]) == n % 10;
      DecimalValue(n / 10);
      WrapStep(n / 10, n % 10);
      assert (n / 10) * 10 + n % 10 == n;
    }
  }

  /** Parsing is a left inverse of formatting: every key survives the round trip. */
  lemma FormatRoundTrip(k: Key)
    ensures ParseAddress(Format(k)) == Ok(k)
  {
    var o := KeyOctets(k);
    var parts := [Decimal(o[0]), Decimal(o[1]), Decimal(o[2]), Decimal(o[3])];
    forall i | 0 <= i < 4 ensures Dot !in parts[i] && PartValue(parts[i]) == o[i] {
      DecimalValue(o[i]);
    }
    SplitJoin(parts, Dot);
    assert Octets(parts) == o;
  }

  /** Leading zeros do not change a part's value. */
  lemma {:induction false} LeadingZeros(part: seq<byte>)
    ensures PartValue([Zero] + part) == PartValue(part)
  {
    if part != [] {
      var n := |part| - 1;
      assert ([Zero] + part)[..|part|] == [Zero] + part[..n];
      LeadingZeros(part[..n]);
    } else {
      assert [Zero][..0] == [];
    }
  }

  /** A token whose parts, none holding a dot, are as given parses to the
      packed value of the parts when there are four of them, all at most 255. */
  lemma ParseJoined(parts: seq<seq<byte>>)
    requires |parts| >= 1 && forall i :: 0 <= i < |parts| ==> Dot !in parts[i]
    ensures ParseAddress(Join(parts, Dot)).Ok? <==> WellFormed(parts)
    ensures WellFormed(parts) ==>
      ParseAddress(Join(parts, Dot)).value == PackOctets(Octets(parts))
  {
    SplitJoin(parts, Dot);
    if |parts| == 4 { PackFour(Octets(parts)); }
  }
}
