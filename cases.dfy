/** Concrete inputs: cases for the parser and an end-to-end example, and inputs that show the parser, as written, accepting what a
    strict dotted-quad reader would not. Each case takes its text as a
    parameter equal to a literal. */
module Cases {
  import opened GoStrings
  import opened Address
  import opened Promotion
  import opened Worker

  lemma Value192()
    ensures PartValue([49, 57, 50]) == 192
  {
    assert [49, 57, 50][..2] == [49, 57];
    assert [49, 57][..1] == [49];
    assert [49][..0] == [];
  }

  lemma Value256()
    ensures PartValue([50, 53, 54]) == 256
  {
    assert [50, 53, 54][..2] == [50, 53];
    assert [50, 53][..1] == [50];
    assert [50][..0] == [];
  }

  lemma Value168()
    ensures PartValue([49, 54, 56]) == 168
  {
    assert [49, 54, 56][..2] == [49, 54];
    assert [49, 54][..1] == [49];
    assert [49][..0] == [];
  }

  lemma Value10()
    ensures PartValue([49, 48]) == 10
  {
    assert [49, 48][..1] == [49];
    assert [49][..0] == [];
  }

  lemma SmallValues()
    ensures PartValue([48]) == 0 && PartValue([49]) == 1 && PartValue([50]) == 2
    ensures PartValue([51]) == 3 && PartValue([52]) == 4
  {
    assert [48][..0] == [] && [49][..0] == [] && [50][..0] == [];
    assert [51][..0] == [] && [52][..0] == [];
  }

  /** The text of four parts with a dot between neighbours. */
  lemma JoinFour(parts: seq<seq<byte>>)
    requires |parts| == 4
    ensures Join(parts, Dot) == parts[0] + [Dot] + parts[1] + [Dot] + parts[2] + [Dot] + parts[3]
  {
    var t2 := parts[2] + [Dot] + parts[3];
    var t1 := parts[1] + [Dot] + t2;
    assert parts[1..][1..][1..] == [parts[3]];
    assert Join(parts[1..][1..], Dot) == t2;
    assert Join(parts[1..], Dot) == t1;
    assert parts[0] + [Dot] + t1 == parts[0] + [Dot] + parts[1] + [Dot] + parts[2] + [Dot] + parts[3];
  }

  /** The text of three parts with a dot between neighbours. */
  lemma JoinThree(parts: seq<seq<byte>>)
    requires |parts| == 3
    ensures Join(parts, Dot) == parts[0] + [Dot] + parts[1] + [Dot] + parts[2]
  {
    var t1 := parts[1] + [Dot] + parts[2];
    assert parts[1..][1..] == [parts[2]];
    assert Join(parts[1..], Dot) == t1;
    assert parts[0] + [Dot] + t1 == parts[0] + [Dot] + parts[1] + [Dot] + parts[2];
  }

  predicate DotFree(parts: seq<seq<byte>>)
  {
    forall i :: 0 <= i < |parts| ==> Dot !in parts[i]
  }

  /** The texts of the cases below and their parts. */
  lemma Text192(ip: seq<byte>, parts: seq<seq<byte>>)
    requires ip == Bytes("192.168.1.1") && parts == [[49, 57, 50], [49, 54, 56], [49], [49]]
    ensures ip == Join(parts, Dot) && DotFree(parts)
  {
    JoinFour(parts);
  }

  lemma Text10001(ip: seq<byte>, parts: seq<seq<byte>>)
    requires ip == Bytes("10.0.0.1") && parts == [[49, 48], [48], [48], [49]]
    ensures ip == Join(parts, Dot) && DotFree(parts)
  {
    JoinFour(parts);
  }

  lemma Text10002(ip: seq<byte>, parts: seq<seq<byte>>)
    requires ip == Bytes("10.0.0.2") && parts == [[49, 48], [48], [48], [50]]
    ensures ip == Join(parts, Dot) && DotFree(parts)
  {
    JoinFour(parts);
  }

  lemma Text001234(ip: seq<byte>, parts: seq<seq<byte>>)
    requires ip == Bytes("001.2.3.4") && parts == [[48, 48, 49], [50], [51], [52]]
    ensures ip == Join(parts, Dot) && DotFree(parts)
  {
    JoinFour(parts);
  }

  lemma Text1234(ip: seq<byte>, parts: seq<seq<byte>>)
    requires ip == Bytes("1.2.3.4") && parts == [[49], [50], [51], [52]]
    ensures ip == Join(parts, Dot) && DotFree(parts)
  {
    JoinFour(parts);
  }

  lemma TextDots(ip: seq<byte>, parts: seq<seq<byte>>)
    requires ip == Bytes("...") && parts == [[], [], [], []]
    ensures ip == Join(parts, Dot) && DotFree(parts)
  {
    JoinFour(parts);
  }

  lemma Text1a(ip: seq<byte>, parts: seq<seq<byte>>)
    requires ip == Bytes("1a.0.0.0") && parts == [[49, 97], [48], [48], [48]]
    ensures ip == Join(parts, Dot) && DotFree(parts)
  {
    JoinFour(parts);
  }

  lemma Text256(ip: seq<byte>, parts: seq<seq<byte>>)
    requires ip == Bytes("256.1.1.1") && parts == [[50, 53, 54], [49], [49], [49]]
    ensures ip == Join(parts, Dot) && DotFree(parts)
  {
    JoinFour(parts);
  }

  lemma Text123(ip: seq<byte>, parts: seq<seq<byte>>)
    requires ip == Bytes("1.2.3") && parts == [[49], [50], [51]]
    ensures ip == Join(parts, Dot) && DotFree(parts)
  {
    JoinThree(parts);
  }

  lemma TextNotAnIp(ip: seq<byte>, parts: seq<seq<byte>>)
    requires ip == Bytes("not.an.ip") && parts == [[110, 111, 116], [97, 110], [105, 112]]
    ensures ip == Join(parts, Dot) && DotFree(parts)
  {
    JoinThree(parts);
  }

  /** Four dot-free parts with values a, b, c, d from 0 to 255, joined by
      dots, parse to the key a.b.c.d. */
  lemma QuadValue(ip: seq<byte>, parts: seq<seq<byte>>, a: int, b: int, c: int, d: int)
    requires |parts| == 4 && DotFree(parts) && ip == Join(parts, Dot)
    requires PartValue(parts[0]) == a && PartValue(parts[1]) == b
    requires PartValue(parts[2]) == c && PartValue(parts[3]) == d
    requires 0 <= a <= MaxOctet && 0 <= b <= MaxOctet && 0 <= c <= MaxOctet && 0 <= d <= MaxOctet
    ensures ParseAddress(ip) == Ok(((a * 256 + b) * 256 + c) * 256 + d)
  {
    SplitJoin(parts, Dot);
  }

  /** Dot-free parts that are not an acceptable quad, joined by dots, are
      rejected. */
  lemma Rejected(ip: seq<byte>, parts: seq<seq<byte>>)
    requires |parts| >= 1 && DotFree(parts) && ip == Join(parts, Dot) && !WellFormed(parts)
    ensures ParseAddress(ip).Err?
  {
    SplitJoin(parts, Dot);
  }

  /** "192.168.1.1" is the key 0xC0A80101. */
  lemma ParsesPrivateAddress(ip: seq<byte>)
    requires ip == Bytes("192.168.1.1")
    ensures ParseAddress(ip) == Ok(0xC0A8_0101)
  {
    var parts: seq<seq<byte>> := [[49, 57, 50], [49, 54, 56], [49], [49]];
    Text192(ip, parts);
    Value192();
    Value168();
    SmallValues();
    QuadValue(ip, parts, 192, 168, 1, 1);
  }

  /** "256.1.1.1" is rejected: its first part exceeds 255. */
  lemma RejectsLargeOctet(ip: seq<byte>)
    requires ip == Bytes("256.1.1.1")
    ensures ParseAddress(ip).Err?
  {
    var parts: seq<seq<byte>> := [[50, 53, 54], [49], [49], [49]];
    Text256(ip, parts);
    Value256();
    assert PartValue(parts[0]) > MaxOctet;
    Rejected(ip, parts);
  }

  /** "1.2.3" is rejected: it has three parts. */
  lemma RejectsThreeParts(ip: seq<byte>)
    requires ip == Bytes("1.2.3")
    ensures ParseAddress(ip).Err?
  {
    var parts: seq<seq<byte>> := [[49], [50], [51]];
    Text123(ip, parts);
    Rejected(ip, parts);
  }

  /** The empty line is rejected. */
  lemma RejectsEmptyLine(line: seq<byte>)
    requires line == Bytes("")
    ensures ParseLine(line).Err?
  {
    assert line == [];
    EmptyRejected();
  }

  /** "  10.0.0.1  " has the key of "10.0.0.1". */
  lemma IgnoresSurroundingSpace(line: seq<byte>, ip: seq<byte>)
    requires line == Bytes("  10.0.0.1  ") && ip == Bytes("10.0.0.1")
    ensures ParseLine(line) == ParseAddress(ip)
  {
    assert line == [32, 32] + ip + [32, 32];
    PaddedLine([32, 32], ip, [32, 32]);
    TrimSpaceKeeps(ip);
  }

  /** "001" reads as 1. */
  lemma ZeroPadded()
    ensures PartValue([48, 48, 49]) == 1
  {
    LeadingZeros([48, 49]);
    LeadingZeros([49]);
    assert [48, 48, 49] == [48] + [48, 49] && [48, 49] == [48] + [49];
    assert [49][..0] == [];
  }

  /** A leading zero is read as part of the number: "001.2.3.4" is "1.2.3.4". */
  lemma LeadingZerosAccepted(a: seq<byte>, b: seq<byte>)
    requires a == Bytes("001.2.3.4") && b == Bytes("1.2.3.4")
    ensures ParseAddress(a) == ParseAddress(b) == Ok(0x0102_0304)
  {
    var p: seq<seq<byte>> := [[49], [50], [51], [52]];
    var q: seq<seq<byte>> := [[48, 48, 49], [50], [51], [52]];
    Text001234(a, q);
    Text1234(b, p);
    ZeroPadded();
    SmallValues();
    QuadValue(a, q, 1, 2, 3, 4);
    QuadValue(b, p, 1, 2, 3, 4);
  }

  /** As written, empty parts count as 0: "..." is accepted as 0.0.0.0. */
  lemma EmptyPartsAccepted(ip: seq<byte>)
    requires ip == Bytes("...")
    ensures ParseAddress(ip) == Ok(0)
  {
    var parts: seq<seq<byte>> := [[], [], [], []];
    TextDots(ip, parts);
    QuadValue(ip, parts, 0, 0, 0, 0);
  }

  /** As written, a non-digit is folded in: in "1a.0.0.0", 'a' - '0' is 49,
      so the first part reads as 1*10 + 49 = 59. */
  lemma NonDigitsAccepted(ip: seq<byte>)
    requires ip == Bytes("1a.0.0.0")
    ensures ParseAddress(ip) == Ok(59 * 0x100_0000)
  {
    var parts: seq<seq<byte>> := [[49, 97], [48], [48], [48]];
    Text1a(ip, parts);
    assert PartValue([49, 97]) == 59 by { assert [49, 97][..1] == [49]; assert [49][..0] == []; }
    SmallValues();
    QuadValue(ip, parts, 59, 0, 0, 0);
  }

  /** As written, a part's value wraps as a Go `int`: the 20-digit part
      18446744073709551617 (2^64 + 1) reads as 1, so that token is accepted
      as 1.1.1.1. */
  lemma OverflowWrapsIntoRange(ip: seq<byte>, big: seq<byte>, n: nat)
    requires n == IntModulus + 1 && big == Decimal(n) && ip == Join([big, [49], [49], [49]], Dot)
    ensures ParseAddress(ip) == Ok(0x0101_0101)
  {
    var parts: seq<seq<byte>> := [big, [49], [49], [49]];
    DecimalValue(n);
    DecimalDotFree(n);
    assert WrapInt(n) == 1;
    SmallValues();
    QuadValue(ip, parts, 1, 1, 1, 1);
  }

  /** The part 9223372036854775808 (2^63) wraps to -2^63. */
  lemma NegativePart(n: nat)
    requires n == IntLimit
    ensures PartValue(Decimal(n)) == -IntLimit
  {
    DecimalValue(n);
  }

  /** A token whose first part has a negative value is rejected. */
  lemma NegativePartRejected(ip: seq<byte>, big: seq<byte>)
    requires Dot !in big && PartValue(big) < 0 && ip == Join([big, [48], [48], [48]], Dot)
    ensures ParseAddress(ip).Err?
  {
    var parts: seq<seq<byte>> := [big, [48], [48], [48]];
    Rejected(ip, parts);
  }

  /** The `num < 0` guard is reachable: the token whose first part is
      9223372036854775808 (2^63) is rejected by it. */
  lemma OverflowWrapsNegative(n: nat)
    requires n == IntLimit
    ensures ParseAddress(Join([Decimal(n), [48], [48], [48]], Dot)).Err?
  {
    DecimalDotFree(n);
    NegativePart(n);
    NegativePartRejected(Join([Decimal(n), [48], [48], [48]], Dot), Decimal(n));
  }

  /** "10.0.0.1", "10.0.0.2" and "192.168.1.1" are lines with those keys,
      "not.an.ip" a line without one. */
  lemma Line10001(line: seq<byte>)
    requires line == Bytes("10.0.0.1")
    ensures ParseLine(line) == Ok(0x0A00_0001)
  {
    var parts: seq<seq<byte>> := [[49, 48], [48], [48], [49]];
    Text10001(line, parts);
    TrimSpaceKeeps(line);
    Value10();
    SmallValues();
    QuadValue(line, parts, 10, 0, 0, 1);
  }

  lemma Line10002(line: seq<byte>)
    requires line == Bytes("10.0.0.2")
    ensures ParseLine(line) == Ok(0x0A00_0002)
  {
    var parts: seq<seq<byte>> := [[49, 48], [48], [48], [50]];
    Text10002(line, parts);
    TrimSpaceKeeps(line);
    Value10();
    SmallValues();
    QuadValue(line, parts, 10, 0, 0, 2);
  }

  lemma Line192(line: seq<byte>)
    requires line == Bytes("192.168.1.1")
    ensures ParseLine(line) == Ok(0xC0A8_0101)
  {
    TrimSpaceKeeps(line);
    ParsesPrivateAddress(line);
  }

  lemma LineNotAnIp(line: seq<byte>)
    requires line == Bytes("not.an.ip")
    ensures ParseLine(line).Err?
  {
    var parts: seq<seq<byte>> := [[110, 111, 116], [97, 110], [105, 112]];
    TextNotAnIp(line, parts);
    TrimSpaceKeeps(line);
    Rejected(line, parts);
  }

  /** Five parse results of which the first two are the same address, the
      third another, the fourth an error and the fifth a third address. */
  lemma FiveResults(rs: seq<Result<Key>>, a: Key, b: Key, c: Key)
    requires |rs| == 5
    requires rs[0] == Ok(a) && rs[1] == Ok(a) && rs[2] == Ok(b) && rs[3].Err? && rs[4] == Ok(c)
    ensures OkKeys(rs) == {a, b, c}
  {
    forall k: Key ensures k in OkKeys(rs) <==> k in {a, b, c} {
      OkKeysMembers(rs, k);
      if Ok(k) in rs {
        var i :| 0 <= i < 5 && rs[i] == Ok(k);
      }
      if k == a { assert rs[0] == Ok(k); }
      if k == b { assert rs[2] == Ok(k); }
      if k == c { assert rs[4] == Ok(k); }
    }
  }

  /** An end-to-end example: of the lines "10.0.0.1", "10.0.0.1",
      "10.0.0.2", "not.an.ip" and "192.168.1.1" (one chunk, the lines
      separated by newlines), three distinct addresses are counted, the
      repeated one once and the malformed one not at all. */
  lemma EndToEnd(chunk: seq<byte>, l1: seq<byte>, l2: seq<byte>, l3: seq<byte>, l4: seq<byte>)
    requires l1 == Bytes("10.0.0.1") && l2 == Bytes("10.0.0.2")
    requires l3 == Bytes("not.an.ip") && l4 == Bytes("192.168.1.1")
    requires chunk == Join([l1, l1, l2, l3, l4], Newline)
    ensures ChunkKeys(chunk) == {0x0A00_0001, 0x0A00_0002, 0xC0A8_0101}
  {
    var lines: seq<seq<byte>> := [l1, l1, l2, l3, l4];
    assert Newline !in l1 && Newline !in l2 && Newline !in l3 && Newline !in l4;
    SplitJoin(lines, Newline);
    Line10001(l1);
    Line10002(l2);
    LineNotAnIp(l3);
    Line192(l4);
    FiveResults(ParseLines(lines), 0x0A00_0001, 0x0A00_0002, 0xC0A8_0101);
  }

  /** That chunk handed to the second of three workers: the run counts three. */
  lemma EndToEndOneWorker(chunk: seq<byte>, l1: seq<byte>, l2: seq<byte>, l3: seq<byte>, l4: seq<byte>,
                      work: seq<seq<seq<byte>>>)
    requires l1 == Bytes("10.0.0.1") && l2 == Bytes("10.0.0.2")
    requires l3 == Bytes("not.an.ip") && l4 == Bytes("192.168.1.1")
    requires chunk == Join([l1, l1, l2, l3, l4], Newline)
    requires work == [[], [chunk], []]
    ensures |Union(LocalsOf(work))| == 3
  {
    EndToEnd(chunk, l1, l2, l3, l4);
    var ls: seq<set<Key>> := LocalsOf(work);
    var none: set<Key> := {};
    assert work[0] == [] && work[1] == [chunk] && work[2] == [];
    assert [chunk][..0] == [];
    assert ChunkSets([chunk]) == [ChunkKeys(chunk)];
    assert LocalKeys([chunk]) == ChunkKeys(chunk) by { assert [ChunkKeys(chunk)][..0] == ChunkSets([]); }
    assert ls[0] == none && ls[1] == ChunkKeys(chunk) && ls[2] == none;
    assert ls == [none, ChunkKeys(chunk), none];
    assert ls[..2] == [none, ChunkKeys(chunk)];
    assert ls[..2][..1] == [none];
    assert ls[..2][..1][..0] == ls[..0];
    assert Union(ls[..1]) == none;
    assert Union(ls[..2]) == ChunkKeys(chunk);
    assert Union(ls) == {0x0A00_0001, 0x0A00_0002, 0xC0A8_0101};
  }

  /** Workers that receive only copies of one chunk, at least one copy in
      all, together hold exactly that chunk's keys. */
  lemma CopiesOfOneChunk(chunk: seq<byte>, work: seq<seq<seq<byte>>>)
    requires forall w, c :: 0 <= w < |work| && 0 <= c < |work[w]| ==> work[w][c] == chunk
    requires exists w :: 0 <= w < |work| && |work[w]| > 0
    ensures Union(LocalsOf(work)) == ChunkKeys(chunk)
  {
    var v :| 0 <= v < |work| && |work[v]| > 0;
    assert work[v][0] == chunk;
    forall k: Key ensures k in Union(LocalsOf(work)) <==> k in ChunkKeys(chunk) {
      AllKeysMembers(work, k);
    }
  }

  /** However copies of that chunk are handed to the workers, as long as at
      least one worker receives one, the run counts three. */
  lemma EndToEndCount(chunk: seq<byte>, l1: seq<byte>, l2: seq<byte>, l3: seq<byte>, l4: seq<byte>,
                      work: seq<seq<seq<byte>>>)
    requires l1 == Bytes("10.0.0.1") && l2 == Bytes("10.0.0.2")
    requires l3 == Bytes("not.an.ip") && l4 == Bytes("192.168.1.1")
    requires chunk == Join([l1, l1, l2, l3, l4], Newline)
    requires forall w, c :: 0 <= w < |work| && 0 <= c < |work[w]| ==> work[w][c] == chunk
    requires exists w :: 0 <= w < |work| && |work[w]| > 0
    ensures |Union(LocalsOf(work))| == 3
  {
    EndToEnd(chunk, l1, l2, l3, l4);
    CopiesOfOneChunk(chunk, work);
  }
}
