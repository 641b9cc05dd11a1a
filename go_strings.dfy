/** Byte strings, and the two functions of Go's `strings` package that the
    counter relies on: `strings.Split` with a one-byte separator and
    `strings.TrimSpace` (ASCII white space only). A Go `string` is a sequence
    of bytes, and so is every text value of this model. */
module GoStrings {

  type byte = b: int | 0 <= b < 256

  const Newline: byte := 10
  const Dot: byte := 46

  /** The bytes of a string literal whose characters are all below 256. */
  function Bytes(s: string): (r: seq<byte>)
    requires forall i :: 0 <= i < |s| ==> s[i] as int < 256
    ensures |r| == |s| && forall i :: 0 <= i < |s| ==> r[i] == s[i] as int
  {
    seq(|s|, i requires 0 <= i < |s| => s[i] as int)
  }

  /** How many times `c` occurs in `s`. */
  function Occurrences(s: seq<byte>, c: byte): nat
  {
    if s == [] then 0 else (if s[0] == c then 1 else 0) + Occurrences(s[1..], c)
  }

  /** `strings.Split(s, sep)` for a one-byte `sep`: the pieces of `s` between
      separators, so there is always one more piece than there are separators
      (the empty string splits into one empty piece). */
  function Split(s: seq<byte>, sep: byte): (parts: seq<seq<byte>>)
    ensures |parts| == Occurrences(s, sep) + 1
    ensures forall i :: 0 <= i < |parts| ==> sep !in parts[i]
  {
    if s == [] then [[]]
    else
      var rest := Split(s[1..], sep);
      if s[0] == sep then [[]] + rest
      else [[s[0]] + rest[0]] + rest[1..]
  }

  /** `strings.Join(parts, sep)`: the pieces with one separator between neighbours. */
  function Join(parts: seq<seq<byte>>, sep: byte): seq<byte>
    requires |parts| >= 1
  {
    if |parts| == 1 then parts[0] else parts[0] + [sep] + Join(parts[1..], sep)
  }

  /** Joining the pieces of a split restores the string. */
  lemma {:induction false} JoinSplit(s: seq<byte>, sep: byte)
    ensures Join(Split(s, sep), sep) == s
  {
    if s != [] {
      var rest := Split(s[1..], sep);
      JoinSplit(s[1..], sep);
      if s[0] != sep && |rest| > 1 {
        assert rest == [rest[0]] + rest[1..];
        assert Join(rest, sep) == rest[0] + [sep] + Join(rest[1..], sep);
      }
    }
  }

  /** Splitting a string that starts with a separator-free `a` puts `a` in
      front of the first piece of the rest. */
  lemma {:induction false} SplitPrefix(a: seq<byte>, b: seq<byte>, sep: byte)
    requires sep !in a
    ensures Split(a + b, sep) == [a + Split(b, sep)[0]] + Split(b, sep)[1..]
  {
    if a != [] {
      assert (a + b)[1..] == a[1..] + b;
      SplitPrefix(a[1..], b, sep);
      assert [a[0]] + (a[1..] + Split(b, sep)[0]) == a + Split(b, sep)[0];
    } else {
      var parts := Split(b, sep);
      assert a + b == b && a + parts[0] == parts[0];
      assert parts == [parts[0]] + parts[1..];
    }
  }

  /** Splitting the join of separator-free pieces gives the pieces back. */
  lemma {:induction false} SplitJoin(parts: seq<seq<byte>>, sep: byte)
    requires |parts| >= 1
    requires forall i :: 0 <= i < |parts| ==> sep !in parts[i]
    ensures Split(Join(parts, sep), sep) == parts
  {
    if |parts| == 1 {
      SplitPrefix(parts[0], [], sep);
      assert parts[0] + [] == parts[0];
    } else {
      var tail := [sep] + Join(parts[1..], sep);
      SplitJoin(parts[1..], sep);
      assert tail[1..] == Join(parts[1..], sep);
      assert Split(tail, sep) == [[]] + parts[1..];
      SplitPrefix(parts[0], tail, sep);
      assert parts[0] + [sep] + Join(parts[1..], sep) == parts[0] + tail;
      assert parts[0] + [] == parts[0];
    }
  }

  /** The bytes `unicode.IsSpace` accepts below 0x80: tab, newline, vertical
      tab, form feed, carriage return and space. */
  predicate IsSpace(b: byte)
  {
    b == 9 || b == 10 || b == 11 || b == 12 || b == 13 || b == 32
  }

  /** `s` without its leading white space. */
  function TrimLeft(s: seq<byte>): seq<byte>
  {
    if s != [] && IsSpace(s[0]) then TrimLeft(s[1..]) else s
  }

  /** `s` without its trailing white space. */
  function TrimRight(s: seq<byte>): seq<byte>
  {
    if s != [] && IsSpace(s[|s| - 1]) then TrimRight(s[..|s| - 1]) else s
  }

  /** TrimLeft drops a white-space prefix and stops at the first other byte. */
  lemma {:induction false} TrimLeftShape(s: seq<byte>)
    ensures var r := TrimLeft(s);
      && |r| <= |s| && r == s[|s| - |r|..]
      && (forall i :: 0 <= i < |s| - |r| ==> IsSpace(s[i]))
      && (r != [] ==> !IsSpace(r[0]))
  {
    if s != [] && IsSpace(s[0]) {
      TrimLeftShape(s[1..]);
    }
  }

  /** TrimRight drops a white-space suffix and stops at the last other byte. */
  lemma {:induction false} TrimRightShape(s: seq<byte>)
    ensures var r := TrimRight(s);
      && |r| <= |s| && r == s[..|r|]
      && (forall i :: |r| <= i < |s| ==> IsSpace(s[i]))
      && (r != [] ==> !IsSpace(r[|r| - 1]))
  {
    if s != [] && IsSpace(s[|s| - 1]) {
      TrimRightShape(s[..|s| - 1]);
    }
  }

  /** `strings.TrimSpace(s)`: `s` without the white space at either end. */
  function TrimSpace(s: seq<byte>): seq<byte>
  {
    TrimRight(TrimLeft(s))
  }

  /** What TrimSpace leaves is the infix of `s` between a white-space prefix
      and a white-space suffix, and it neither starts nor ends with white
      space. */
  lemma TrimSpaceShape(s: seq<byte>)
    ensures var r := TrimSpace(s); var i := |s| - |TrimLeft(s)|;
      && 0 <= i <= |s| - |r| && r == s[i..i + |r|]
      && (forall k :: 0 <= k < i ==> IsSpace(s[k]))
      && (forall k :: i + |r| <= k < |s| ==> IsSpace(s[k]))
      && (r != [] ==> !IsSpace(r[0]) && !IsSpace(r[|r| - 1]))
  {
    var left := TrimLeft(s);
    TrimLeftShape(s);
    TrimRightShape(left);
    var r := TrimRight(left);
    var i := |s| - |left|;
    assert left == s[i..];
    assert r == left[..|r|];
    assert r == s[i..i + |r|] by {
      forall j | 0 <= j < |r| ensures r[j] == s[i + j] {
        assert r[j] == left[j];
      }
    }
    forall k | i + |r| <= k < |s| ensures IsSpace(s[k]) {
      assert s[k] == left[k - i];
    }
  }

  /** A string that neither starts nor ends with white space is left as it is. */
  lemma TrimSpaceKeeps(s: seq<byte>)
    requires s != [] && !IsSpace(s[0]) && !IsSpace(s[|s| - 1])
    ensures TrimSpace(s) == s
  {
  }

  /** Trimming twice is trimming once. */
  lemma TrimSpaceIdempotent(s: seq<byte>)
    ensures TrimSpace(TrimSpace(s)) == TrimSpace(s)
  {
    TrimSpaceShape(s);
  }

  lemma {:induction false} TrimLeftPadding(pre: seq<byte>, s: seq<byte>)
    requires forall k :: 0 <= k < |pre| ==> IsSpace(pre[k])
    ensures TrimLeft(pre + s) == TrimLeft(s)
  {
    if pre != [] {
      assert (pre + s)[1..] == pre[1..] + s;
      TrimLeftPadding(pre[1..], s);
    } else {
      assert pre + s == s;
    }
  }

  lemma {:induction false} TrimRightPadding(s: seq<byte>, post: seq<byte>)
    requires forall k :: 0 <= k < |post| ==> IsSpace(post[k])
    ensures TrimRight(s + post) == TrimRight(s)
  {
    if post != [] {
      var n := |post| - 1;
      assert (s + post)[..|s + post| - 1] == s + post[..n];
      TrimRightPadding(s, post[..n]);
    } else {
      assert s + post == s;
    }
  }

  /** When `s` has a non-space byte, trimming the left of `s + post` only
      touches `s`. */
  lemma {:induction false} TrimLeftAppend(s: seq<byte>, post: seq<byte>)
    requires exists k :: 0 <= k < |s| && !IsSpace(s[k])
    ensures TrimLeft(s + post) == TrimLeft(s) + post
  {
    assert s != [];
    if IsSpace(s[0]) {
      assert (s + post)[1..] == s[1..] + post;
      var k :| 0 <= k < |s| && !IsSpace(s[k]);
      assert 0 <= k - 1 < |s[1..]| && !IsSpace(s[1..][k - 1]);
      TrimLeftAppend(s[1..], post);
    }
  }

  /** White space around a line does not change what TrimSpace leaves. */
  lemma TrimSpacePadding(pre: seq<byte>, s: seq<byte>, post: seq<byte>)
    requires forall k :: 0 <= k < |pre| ==> IsSpace(pre[k])
    requires forall k :: 0 <= k < |post| ==> IsSpace(post[k])
    ensures TrimSpace(pre + s + post) == TrimSpace(s)
  {
    assert pre + s + post == pre + (s + post);
    TrimLeftPadding(pre, s + post);
    if exists k :: 0 <= k < |s| && !IsSpace(s[k]) {
      TrimLeftAppend(s, post);
      TrimRightPadding(TrimLeft(s), post);
    } else {
      assert forall k :: 0 <= k < |s + post| ==> IsSpace((s + post)[k]);
      TrimLeftShape(s + post);
      TrimLeftShape(s);
      assert TrimLeft(s + post) == [];
      assert TrimLeft(s) == [];
    }
  }
}
