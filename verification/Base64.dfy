// The Base64 encoder and decoder of src/core/base64.cpp, on unsigned chars.
module Base64 {

  type uchar = bv8

  const PAD: uchar := 61  // '='

  /** The encoder table: A-Z, a-z, 0-9, + and /. */
  function Letter(v: uchar): (c: uchar)
    requires v < 64
    ensures InAlphabet(c) && Value(c) == v
  {
    if v < 26 then v + 65 else if v < 52 then v + 71 else if v < 62 then v - 4 else if v == 62 then 43 else 47
  }

  predicate InAlphabet(c: uchar)
  {
    65 <= c <= 90 || 97 <= c <= 122 || 48 <= c <= 57 || c == 43 || c == 47
  }

  /** The decoder table, which has 123 entries; everything outside the alphabet is 0. */
  function Value(c: uchar): (v: uchar)
    ensures v < 64
    ensures InAlphabet(c) && v < 26 ==> c == v + 65
  {
    if 65 <= c <= 90 then c - 65
    else if 97 <= c <= 122 then c - 71
    else if 48 <= c <= 57 then c + 4
    else if c == 43 then 62
    else if c == 47 then 63
    else 0
  }

  lemma ValueLetter(c: uchar)
    requires InAlphabet(c)
    ensures Letter(Value(c)) == c
  {
  }

  /** Table 1 of RFC 4648: 'A' is 0, 'a' 26, '0' 52, '+' 62 and '/' 63; letters and digits follow one another, and the
      pad is '='. */
  lemma AlphabetInOrder(v: uchar)
    requires v < 63
    ensures PAD == 61 && Letter(0) == 65 && Letter(26) == 97 && Letter(52) == 48 && Letter(62) == 43 && Letter(63) == 47
    ensures v != 25 && v != 51 && v < 61 ==> Letter(v + 1) == Letter(v) + 1
  {
  }

  /** A character outside the alphabet, padding included, is decoded like an 'A'. */
  lemma StrangersAreA(c: uchar)
    requires !InAlphabet(c)
    ensures Value(c) == Value(65) == 0
  {
  }

  // ---------- Six bits and eight bits ----------

  function Sextet0(b0: uchar): (v: uchar)
    ensures v < 64
  {
    b0 >> 2
  }

  function Sextet1(b0: uchar, b1: uchar): (v: uchar)
    ensures v < 64
  {
    ((b0 & 0x03) << 4) | ((b1 & 0xF0) >> 4)
  }

  function Sextet2(b1: uchar, b2: uchar): (v: uchar)
    ensures v < 64
  {
    ((b1 & 0x0F) << 2) | ((b2 & 0xC0) >> 6)
  }

  function Sextet3(b2: uchar): (v: uchar)
    ensures v < 64
  {
    b2 & 0x3F
  }

  function Octet0(v0: uchar, v1: uchar): uchar
  {
    (v0 << 2) | (v1 >> 4)
  }

  function Octet1(v1: uchar, v2: uchar): uchar
  {
    (v1 << 4) | (v2 >> 2)
  }

  function Octet2(v2: uchar, v3: uchar): uchar
  {
    (v2 << 6) | v3
  }

  lemma OctetsOfSextets(b0: uchar, b1: uchar, b2: uchar)
    ensures Octet0(Sextet0(b0), Sextet1(b0, b1)) == b0
    ensures Octet1(Sextet1(b0, b1), Sextet2(b1, b2)) == b1
    ensures Octet2(Sextet2(b1, b2), Sextet3(b2)) == b2
  {
  }

  lemma SextetsOfOctets(v0: uchar, v1: uchar, v2: uchar, v3: uchar)
    requires v0 < 64 && v1 < 64 && v2 < 64 && v3 < 64
    ensures Sextet0(Octet0(v0, v1)) == v0
    ensures Sextet1(Octet0(v0, v1), Octet1(v1, v2)) == v1
    ensures Sextet2(Octet1(v1, v2), Octet2(v2, v3)) == v2
    ensures Sextet3(Octet2(v2, v3)) == v3
  {
  }

  // ---------- Encoding ----------

  function Group(b0: uchar, b1: uchar, b2: uchar): (g: seq<uchar>)
    ensures |g| == 4
  {
    [Letter(Sextet0(b0)), Letter(Sextet1(b0, b1)), Letter(Sextet2(b1, b2)), Letter(Sextet3(b2))]
  }

  /** What the encoder prints; next is the byte behind the input, which it reads when the last group is short. */
  function Encoded(s: seq<uchar>, next: uchar): (t: seq<uchar>)
    ensures s != [] ==> |t| >= 4
  {
    if s == [] then []
    else if |s| == 1 then Group(s[0], next, 0)[..2] + [PAD, PAD]
    else if |s| == 2 then Group(s[0], s[1], next)[..3] + [PAD]
    else Group(s[0], s[1], s[2]) + Encoded(s[3..], next)
  }

  /** Section 4 of RFC 4648: three octets are one number of 24 bits, cut into four digits of six bits. */
  function Digits24(bits: bv24): (g: seq<uchar>)
    ensures |g| == 4
  {
    [Letter(((bits >> 18) & 63) as uchar), Letter(((bits >> 12) & 63) as uchar),
     Letter(((bits >> 6) & 63) as uchar), Letter((bits & 63) as uchar)]
  }

  function Bits24(b0: uchar, b1: uchar, b2: uchar): bv24
  {
    ((b0 as bv24) << 16) | ((b1 as bv24) << 8) | (b2 as bv24)
  }

  /** Missing octets count as zero bits, and digits made of nothing else are padding. */
  function Rfc4648(s: seq<uchar>): seq<uchar>
  {
    if s == [] then []
    else if |s| == 1 then Digits24(Bits24(s[0], 0, 0))[..2] + [PAD, PAD]
    else if |s| == 2 then Digits24(Bits24(s[0], s[1], 0))[..3] + [PAD]
    else Digits24(Bits24(s[0], s[1], s[2])) + Rfc4648(s[3..])
  }

  lemma GroupIs24Bits(b0: uchar, b1: uchar, b2: uchar)
    ensures Digits24(Bits24(b0, b1, b2)) == Group(b0, b1, b2)
  {
  }

  /** Bits of the byte behind the input that leak into the text. */
  function Leak(s: seq<uchar>, next: uchar): uchar
  {
    if s == [] then 0 else if |s| == 1 then next & 0xF0 else if |s| == 2 then next & 0xC0 else Leak(s[3..], next)
  }

  lemma LeakShows(b: uchar, next: uchar)
    ensures Letter(Sextet1(b, next)) == Letter(Sextet1(b, 0)) <==> next & 0xF0 == 0
    ensures Letter(Sextet2(b, next)) == Letter(Sextet2(b, 0)) <==> next & 0xC0 == 0
  {
    assert Sextet1(b, next) == Sextet1(b, 0) <==> next & 0xF0 == 0;
    assert Sextet2(b, next) == Sextet2(b, 0) <==> next & 0xC0 == 0;
  }

  /** The encoder follows the standard exactly when no bits leak in, in particular on NUL-terminated input. */
  lemma {:induction false} FollowsRfc4648(s: seq<uchar>, next: uchar)
    ensures Encoded(s, next) == Rfc4648(s) <==> Leak(s, next) == 0
    decreases |s|
  {
    if |s| > 2 {
      FollowsRfc4648(s[3..], next);
      FirstGroupFollows(s, next);
    } else {
      LastGroupFollows(s, next);
    }
  }

  lemma LastGroupFollows(s: seq<uchar>, next: uchar)
    requires |s| <= 2
    ensures Encoded(s, next) == Rfc4648(s) <==> Leak(s, next) == 0
  {
    if |s| == 1 {
      GroupIs24Bits(s[0], 0, 0);
      LeakShows(s[0], next);
      assert Encoded(s, next)[1] == Letter(Sextet1(s[0], next)) && Rfc4648(s)[1] == Letter(Sextet1(s[0], 0));
    } else if |s| == 2 {
      GroupIs24Bits(s[0], s[1], 0);
      LeakShows(s[1], next);
      assert Encoded(s, next)[2] == Letter(Sextet2(s[1], next)) && Rfc4648(s)[2] == Letter(Sextet2(s[1], 0));
    }
  }

  lemma FirstGroupFollows(s: seq<uchar>, next: uchar)
    requires |s| > 2
    ensures Encoded(s, next) == Rfc4648(s) <==> Encoded(s[3..], next) == Rfc4648(s[3..])
  {
    GroupIs24Bits(s[0], s[1], s[2]);
    Cancel(Group(s[0], s[1], s[2]), Encoded(s[3..], next), Rfc4648(s[3..]));
  }

  lemma Cancel(g: seq<uchar>, a: seq<uchar>, b: seq<uchar>)
    ensures g + a == g + b <==> a == b
  {
    assert (g + a)[|g|..] == a && (g + b)[|g|..] == b;
  }

  lemma {:induction false} EncodedLength(s: seq<uchar>, next: uchar)
    ensures |Encoded(s, next)| == (|s| + 2) / 3 * 4
    decreases |s|
  {
    if |s| >= 3 { EncodedLength(s[3..], next); }
  }

  /** The size the encoder returns. */
  function ReportedSize(n: nat): nat
  {
    n * 4 / 3 + if n % 3 != 0 then 3 else 0
  }

  /** It is the length of the text exactly when the input length is not 2 mod 3; then it is one too many, and the
      decoder refuses a text of that size. */
  lemma ReportedSizeIs(s: seq<uchar>, next: uchar)
    ensures ReportedSize(|s|) == |Encoded(s, next)| + if |s| % 3 == 2 then 1 else 0
    ensures ReportedSize(|s|) % 4 == 0 <==> |s| % 3 != 2
  {
    EncodedLength(s, next);
    var q := |s| / 3;
    assert |s| == 3 * q || |s| == 3 * q + 1 || |s| == 3 * q + 2;
  }

  /** Encodes the first n bytes of a buffer; with a short last group it also reads the byte behind them. */
  method Encode(input: array<uchar>, n: nat) returns (size: nat, out: array<uchar>)
    requires n <= input.Length && (n % 3 != 0 ==> n < input.Length)
    ensures size == ReportedSize(n) && out.Length == size + 1
    ensures
      var t := Encoded(input[..n], if n < input.Length then input[n] else 0);
      |t| < out.Length && out[..|t|] == t && out[|t|] == 0
  {
    ghost var next: uchar := if n < input.Length then input[n] else 0;
    size := n * 4 / 3 + if n % 3 != 0 then 3 else 0;
    out := new uchar[size + 1](_ => 0);
    ReportedSizeIs(input[..n], next);
    EncodeAll(input, n, out, next, n / 3);
  }

  /** Where the encoding loop stands: rest is the input still to be read, from index i on, a whole number of groups
      behind its start; done is the text written. */
  ghost predicate AtBytes(s: seq<uchar>, next: uchar, i: int, groups: nat, rest: seq<uchar>, done: seq<uchar>)
  {
    && i == 3 * groups && rest == (if i <= |s| then s[i..] else [])
    && done + Encoded(rest, next) == Encoded(s, next)
  }

  /** What the encoder may read: the byte behind the input when there is one, or only whole groups. */
  ghost predicate Readable(input: array<uchar>, n: nat, next: uchar, k: nat)
    reads input
  {
    n <= input.Length && if n < input.Length then next == input[n] else n == 3 * k
  }

  /** The encoding loop; when there is no readable byte behind the input, it is made of k whole groups. */
  method EncodeAll(input: array<uchar>, n: nat, out: array<uchar>, ghost next: uchar, ghost k: nat)
    requires Readable(input, n, next, k) && input != out
    requires |Encoded(input[..n], next)| < out.Length
    modifies out
    ensures var t := Encoded(input[..n], next); out[..|t|] == t && out[|t|] == 0
  {
    var o, i := 0, 0;
    ghost var rest, groups := input[..n], 0;
    while i < n
      invariant 0 <= o <= |Encoded(input[..n], next)| && AtBytes(input[..n], next, i, groups, rest, out[..o])
    {
      rest := EncodeTurn(input, n, i, out, o, next, k, groups, rest);
      o := o + 4;
      i, groups := i + 3, groups + 1;
    }
    assert out[..o] + [] == out[..o];
    out[o] := 0;
  }

  method EncodeTurn(input: array<uchar>, n: nat, i: nat, out: array<uchar>, o: nat,
                    ghost next: uchar, ghost k: nat, ghost groups: nat, ghost rest: seq<uchar>)
    returns (ghost more: seq<uchar>)
    requires i < n && Readable(input, n, next, k) && input != out
    requires o <= |Encoded(input[..n], next)| < out.Length
    requires AtBytes(input[..n], next, i, groups, rest, out[..o])
    modifies out
    ensures o + 4 <= |Encoded(input[..n], next)|
    ensures AtBytes(input[..n], next, i + 3, groups + 1, more, out[..o + 4])
  {
    SomeGroup(rest, next);
    assert |Encoded(input[..n], next)| == o + |Encoded(rest, next)| && rest == input[i..n];
    more := EncodeGroup(input, n, i, out, o, next);
    assert i + 3 <= n ==> input[i + 3..n] == input[..n][i + 3..];
  }

  lemma SomeGroup(s: seq<uchar>, next: uchar)
    requires s != []
    ensures |Encoded(s, next)| >= 4
  {
  }

  /** One turn of the encoding loop. */
  method EncodeGroup(input: array<uchar>, n: nat, i: nat, out: array<uchar>, o: nat, ghost next: uchar)
    returns (ghost rest: seq<uchar>)
    requires i < n <= input.Length && (i + 3 > n ==> n < input.Length && next == input[n])
    requires o + 4 <= out.Length && input != out
    modifies out
    ensures rest == if i + 3 <= n then input[i + 3..n] else []
    ensures |Encoded(input[i..n], next)| == 4 + |Encoded(rest, next)|
    ensures out[..o + 4] + Encoded(rest, next) == old(out[..o]) + Encoded(input[i..n], next)
  {
    var pad := if i + 3 < n then 0 else i + 3 - n;
    ghost var s, done := input[i..n], out[..o];
    assert s[0] == input[i] && (|s| > 1 ==> s[1] == input[i + 1]) && (|s| > 2 ==> s[2] == input[i + 2]);
    rest := if i + 3 <= n then input[i + 3..n] else [];
    EncodeStep(done, s, next);
    if i + 3 <= n {
      assert input[..][i..n] == s && input[..][i + 3..n] == rest;
      SliceTail(input[..], i, n);
    }
    FirstFour(s, next);
    var c0 := Letter(Sextet0(input[i]));
    var c1 := Letter(Sextet1(input[i], input[i + 1]));
    var c2 := if 2 == pad then PAD else Letter(Sextet2(input[i + 1], input[i + 2]));
    var c3 := if 1 <= pad then PAD else Letter(Sextet3(input[i + 2]));
    PutFour(out, o, c0, c1, c2, c3);
  }

  method PutFour(out: array<uchar>, o: nat, c0: uchar, c1: uchar, c2: uchar, c3: uchar)
    requires o + 4 <= out.Length
    modifies out
    ensures out[..o + 4] == old(out[..o]) + [c0, c1, c2, c3]
  {
    out[o] := c0;
    out[o + 1] := c1;
    out[o + 2] := c2;
    out[o + 3] := c3;
  }

  method Put(out: array<uchar>, o: nat, c: uchar)
    requires o < out.Length
    modifies out
    ensures out[..o + 1] == old(out[..o]) + [c]
  {
    out[o] := c;
  }

  /** The first group of the text; next stands in for the first byte that is missing. */
  lemma FirstFour(s: seq<uchar>, next: uchar)
    requires s != []
    ensures
      var b1, b2 := if |s| > 1 then s[1] else next, if |s| > 2 then s[2] else next;
      Encoded(s, next)[..4] == [Letter(Sextet0(s[0])), Letter(Sextet1(s[0], b1)),
                                if |s| > 1 then Letter(Sextet2(b1, b2)) else PAD,
                                if |s| > 2 then Letter(Sextet3(b2)) else PAD]
  {
  }

  lemma SliceTail(a: seq<uchar>, i: nat, n: nat)
    requires i + 3 <= n <= |a|
    ensures a[i..n][3..] == a[i + 3..n]
  {
  }

  lemma EncodeStep(done: seq<uchar>, s: seq<uchar>, next: uchar)
    requires s != []
    ensures
      var rest := if |s| < 3 then [] else s[3..];
      |Encoded(s, next)| == 4 + |Encoded(rest, next)| &&
      done + Encoded(s, next) == (done + Encoded(s, next)[..4]) + Encoded(rest, next)
  {
  }

  // ---------- Decoding ----------

  function Octets(c0: uchar, c1: uchar, c2: uchar, c3: uchar): (s: seq<uchar>)
    ensures |s| == 3
  {
    [Octet0(Value(c0), Value(c1)), Octet1(Value(c1), Value(c2)), Octet2(Value(c2), Value(c3))]
  }

  /** Three bytes for every four characters, padding read as zero bits. */
  function AllBytes(t: seq<uchar>): (s: seq<uchar>)
    ensures |t| >= 4 ==> |s| >= 3
  {
    if |t| < 4 then [] else Octets(t[0], t[1], t[2], t[3]) + AllBytes(t[4..])
  }

  lemma {:induction false} AllBytesLength(t: seq<uchar>)
    requires |t| % 4 == 0
    ensures 4 * |AllBytes(t)| == 3 * |t|
    decreases |t|
  {
    if t != [] { AllBytesLength(t[4..]); }
  }

  function PadCount(t: seq<uchar>): (p: nat)
    requires |t| >= 2
    ensures p <= 2
  {
    if t[|t| - 2] == PAD then 2 else if t[|t| - 1] == PAD then 1 else 0
  }

  function Decoded(t: seq<uchar>): (s: seq<uchar>)
    requires |t| >= 4 && |t| % 4 == 0
  {
    var all := AllBytes(t);
    all[..|all| - PadCount(t)]
  }

  /** Characters the decoder table covers. */
  predicate Decodable(t: seq<uchar>)
  {
    forall i :: 0 <= i < |t| ==> t[i] < 123
  }

  /** Decodes n characters into a fresh NUL-terminated buffer; a length that is no multiple of four is refused. */
  method Decode(input: array<uchar>, n: nat) returns (size: nat, out: array?<uchar>)
    requires 0 < n <= input.Length && Decodable(input[..n])
    ensures n % 4 != 0 ==> size == 0 && out == null
    ensures n % 4 == 0 ==> out != null && out[..] == Decoded(input[..n]) + [0] && size == out.Length
  {
    if n % 4 != 0 { return 0, null; }
    ghost var t := input[..n];
    AllBytesLength(t);
    size := n * 3 / 4 + 1;
    if input[n - 2] == PAD {
      size := size - 2;
    } else if input[n - 1] == PAD {
      size := size - 1;
    }
    out := new uchar[size](_ => 0);
    assert size - 1 == |AllBytes(t)| - PadCount(t);
    DecodeAll(input, n, out, AllBytes(t));
  }

  /** The decoding loop. */
  method DecodeAll(input: array<uchar>, n: nat, out: array<uchar>, ghost all: seq<uchar>)
    requires n <= input.Length && input != out && out.Length > 0
    requires AtGroup(all, input[..n], 0, out.Length - 1)
    modifies out
    ensures out[..] == all[..out.Length - 1] + [0]
  {
    var o, last := 0, out.Length - 1;
    var i := 0;
    var more := true;
    ghost var rest := input[0..n];
    assert rest == input[..n];
    while more && i < n
      invariant 0 <= i && 0 <= o <= last && out[..o] == all[..o]
      invariant more ==> i <= n && rest == input[i..n] && AtGroup(all, rest, o, last)
      invariant !more ==> o == last
      decreases more, n - i
    {
      o, more := DecodeGroup(input, i, out, o, last, all, rest);
      rest := rest[4..];
      i := i + 4;
    }
    out[last] := 0;
    assert out[..] == out[..last] + [0];
  }

  /** Where the decoding loop stands before a group: rest is to be decoded to the bytes of all from o on; only the last
      group may be cut short. */
  ghost predicate AtGroup(all: seq<uchar>, rest: seq<uchar>, o: nat, last: nat)
  {
    && o <= |all| && all[o..] == AllBytes(rest) && |rest| % 4 == 0
    && last <= |all| < last + 3 && o <= last && (rest != [] ==> o < last) && (rest == [] ==> o == last)
  }

  lemma NextGroup(all: seq<uchar>, rest: seq<uchar>, o: nat, last: nat)
    requires AtGroup(all, rest, o, last) && rest != []
    ensures o + 3 <= |all| && all[o..o + 3] == Octets(rest[0], rest[1], rest[2], rest[3])
    ensures o + 3 <= last ==> AtGroup(all, rest[4..], o + 3, last)
  {
    var g := Octets(rest[0], rest[1], rest[2], rest[3]);
    assert all[o..] == g + AllBytes(rest[4..]);
    assert all[o..o + 3] == all[o..][..3] && all[o + 3..] == all[o..][3..];
    assert AllBytes(rest[4..]) == (g + AllBytes(rest[4..]))[3..];
  }

  /** One turn of the decoding loop; it stops as soon as the output is full. */
  method DecodeGroup(input: array<uchar>, i: nat, out: array<uchar>, o0: nat, last: nat,
      ghost all: seq<uchar>, ghost rest: seq<uchar>)
    returns (o: nat, more: bool)
    requires input != out && i + |rest| <= input.Length && rest == input[i..i + |rest|] && rest != []
    requires AtGroup(all, rest, o0, last) && last < out.Length && out[..o0] == all[..o0]
    modifies out
    ensures o <= last && out[..o] == all[..o]
    ensures if more then AtGroup(all, rest[4..], o, last) else o == last
  {
    NextGroup(all, rest, o0, last);
    ghost var g := all[o0..o0 + 3];
    assert all[o0] == g[0] && all[o0 + 1] == g[1] && all[o0 + 2] == g[2];
    o := o0;
    OneOn(all, o);
    Put(out, o, Octet0(Value(input[i]), Value(input[i + 1])));
    o := o + 1;
    if o >= last { return o, false; }
    OneOn(all, o);
    Put(out, o, Octet1(Value(input[i + 1]), Value(input[i + 2])));
    o := o + 1;
    if o >= last { return o, false; }
    OneOn(all, o);
    Put(out, o, Octet2(Value(input[i + 2]), Value(input[i + 3])));
    o := o + 1;
    more := true;
  }

  lemma OneOn(s: seq<uchar>, k: nat)
    requires k < |s|
    ensures s[..k + 1] == s[..k] + [s[k]]
  {
  }

  // ---------- Round trips ----------

  lemma OctetsOfGroup(b0: uchar, b1: uchar, b2: uchar)
    ensures var g := Group(b0, b1, b2); Octets(g[0], g[1], g[2], g[3]) == [b0, b1, b2]
  {
    var g := Group(b0, b1, b2);
    assert Value(g[0]) == Sextet0(b0) && Value(g[1]) == Sextet1(b0, b1);
    assert Value(g[2]) == Sextet2(b1, b2) && Value(g[3]) == Sextet3(b2);
    OctetsOfSextets(b0, b1, b2);
  }

  /** A text of one group decodes to the bytes of the group, less one for every padding character. */
  lemma DecodedGroup(t: seq<uchar>)
    requires |t| == 4
    ensures Decoded(t) == Octets(t[0], t[1], t[2], t[3])[..3 - PadCount(t)]
  {
    assert t[4..] == [];
    assert AllBytes(t) == Octets(t[0], t[1], t[2], t[3]) + AllBytes([]);
  }

  lemma OneByte(b: uchar, next: uchar)
    ensures Encoded([b], next) == Group(b, next, 0)[..2] + [PAD, PAD]
    ensures Decoded(Encoded([b], next)) == [b]
  {
    var t := Encoded([b], next);
    OctetsOfGroup(b, next, 0);
    DecodedGroup(t);
  }

  lemma TwoBytes(b: uchar, c: uchar, next: uchar)
    ensures Encoded([b, c], next) == Group(b, c, next)[..3] + [PAD]
    ensures Decoded(Encoded([b, c], next)) == [b, c]
  {
    var t := Encoded([b, c], next);
    OctetsOfGroup(b, c, next);
    DecodedGroup(t);
  }

  lemma ThreeBytes(b: uchar, c: uchar, d: uchar, next: uchar)
    ensures Encoded([b, c, d], next) == Group(b, c, d)
    ensures Decoded(Group(b, c, d)) == [b, c, d]
  {
    var s := [b, c, d];
    assert s[3..] == [] && Encoded(s, next) == Group(b, c, d) + Encoded([], next);
    OctetsOfGroup(b, c, d);
    DecodedGroup(Group(b, c, d));
  }

  lemma ShortGroup(s: seq<uchar>, next: uchar)
    requires 1 <= |s| <= 3
    ensures |Encoded(s, next)| == 4 && Decoded(Encoded(s, next)) == s
  {
    if |s| == 1 {
      assert s == [s[0]];
      OneByte(s[0], next);
    } else if |s| == 2 {
      assert s == [s[0], s[1]];
      TwoBytes(s[0], s[1], next);
    } else {
      assert s == [s[0], s[1], s[2]];
      ThreeBytes(s[0], s[1], s[2], next);
    }
  }

  lemma FirstGroup(s: seq<uchar>, next: uchar) returns (g: seq<uchar>)
    requires |s| > 2
    ensures |g| == 4 && Encoded(s, next) == g + Encoded(s[3..], next) && Octets(g[0], g[1], g[2], g[3]) == s[..3]
  {
    g := Group(s[0], s[1], s[2]);
    OctetsOfGroup(s[0], s[1], s[2]);
  }

  /** A group in front of a text decodes to three bytes in front of the others. */
  lemma PrependGroup(g: seq<uchar>, rest: seq<uchar>)
    requires |g| == 4 && |rest| >= 4 && |rest| % 4 == 0
    ensures |g + rest| % 4 == 0 && Decoded(g + rest) == Octets(g[0], g[1], g[2], g[3]) + Decoded(rest)
  {
    var t := g + rest;
    AllBytesLength(rest);
    assert t[4..] == rest && PadCount(t) == PadCount(rest);
    assert AllBytes(t) == Octets(g[0], g[1], g[2], g[3]) + AllBytes(rest);
  }

  /** Decoding the encoder's text gives the input back, whatever byte stands behind it. */
  lemma {:induction false} DecodeUndoesEncode(s: seq<uchar>, next: uchar)
    requires s != []
    ensures |Encoded(s, next)| % 4 == 0 && Decoded(Encoded(s, next)) == s
    decreases |s|
  {
    if |s| <= 3 {
      ShortGroup(s, next);
    } else {
      DecodeUndoesEncode(s[3..], next);
      OneGroupMore(s, next);
    }
  }

  lemma OneGroupMore(s: seq<uchar>, next: uchar)
    requires |s| > 3 && |Encoded(s[3..], next)| % 4 == 0 && Decoded(Encoded(s[3..], next)) == s[3..]
    ensures |Encoded(s, next)| % 4 == 0 && Decoded(Encoded(s, next)) == s
  {
    var rest := Encoded(s[3..], next);
    var g := FirstGroup(s, next);
    PrependGroup(g, rest);
    assert s == s[..3] + s[3..];
  }

  lemma LetterDecodable(v: uchar)
    requires v < 64
    ensures Letter(v) < 123
  {
  }

  lemma FourDecodable(c0: uchar, c1: uchar, c2: uchar, c3: uchar)
    requires c0 < 123 && c1 < 123 && c2 < 123 && c3 < 123
    ensures Decodable([c0, c1, c2, c3])
  {
  }

  lemma GroupDecodable(b: uchar, c: uchar, d: uchar)
    ensures Decodable(Group(b, c, d))
  {
    LetterDecodable(Sextet0(b));
    LetterDecodable(Sextet1(b, c));
    LetterDecodable(Sextet2(c, d));
    LetterDecodable(Sextet3(d));
    FourDecodable(Letter(Sextet0(b)), Letter(Sextet1(b, c)), Letter(Sextet2(c, d)), Letter(Sextet3(d)));
  }

  /** The decoder's table covers everything the encoder prints. */
  lemma {:induction false} EncodedDecodable(s: seq<uchar>, next: uchar)
    ensures Decodable(Encoded(s, next))
    decreases |s|
  {
    if |s| == 1 {
      GroupDecodable(s[0], next, 0);
    } else if |s| == 2 {
      GroupDecodable(s[0], s[1], next);
    } else if |s| > 2 {
      GroupDecodable(s[0], s[1], s[2]);
      EncodedDecodable(s[3..], next);
    }
  }

  /** Encoding and then decoding the text, by its true length, gives the input and a terminating zero. */
  method EncodeAndDecode(input: array<uchar>, n: nat) returns (size: nat, out: array?<uchar>)
    requires 0 < n <= input.Length && (n % 3 != 0 ==> n < input.Length)
    ensures out != null && out[..] == input[..n] + [0] && size == out.Length
  {
    var reported, letters := Encode(input, n);
    ghost var next: uchar := if n < input.Length then input[n] else 0;
    var length := (n + 2) / 3 * 4;
    EncodedLength(input[..n], next);
    EncodedDecodable(input[..n], next);
    DecodeUndoesEncode(input[..n], next);
    size, out := Decode(letters, length);
  }

  /** Text over the alphabet with proper padding at its end. */
  predicate WellFormed(t: seq<uchar>)
  {
    && |t| >= 4 && |t| % 4 == 0
    && (forall i :: 0 <= i < |t| - PadCount(t) ==> InAlphabet(t[i]))
    && (PadCount(t) == 2 ==> t[|t| - 1] == PAD)
  }

  /** Bits of the last letter that do not make it into the decoded bytes. */
  function Spare(t: seq<uchar>): uchar
    requires |t| >= 4
  {
    var p := PadCount(t);
    if p == 0 then 0 else if p == 2 then Value(t[|t| - 3]) & 0x0F else Value(t[|t| - 2]) & 0x03
  }

  lemma LastGroup(t: seq<uchar>)
    requires WellFormed(t) && |t| == 4
    ensures Encoded(Decoded(t), 0) == t <==> Spare(t) == 0
  {
    var v0, v1, v2, v3 := Value(t[0]), Value(t[1]), Value(t[2]), Value(t[3]);
    var d := Decoded(t);
    assert t[4..] == [];
    assert AllBytes(t) == Octets(t[0], t[1], t[2], t[3]);
    ValueLetter(t[0]);
    ValueLetter(t[1]);
    SextetsOfOctets(v0, v1, v2, v3);
    var p := PadCount(t);
    if p == 2 {
      assert Sextet1(Octet0(v0, v1), 0) == v1 <==> v1 & 0x0F == 0;
      assert Encoded(d, 0) == [Letter(v0), Letter(Sextet1(d[0], 0)), PAD, PAD];
    } else if p == 1 {
      ValueLetter(t[2]);
      assert Sextet2(Octet1(v1, v2), 0) == v2 <==> v2 & 0x03 == 0;
      assert Encoded(d, 0) == [Letter(v0), Letter(v1), Letter(Sextet2(d[1], 0)), PAD];
    } else {
      ValueLetter(t[2]);
      ValueLetter(t[3]);
      assert d[3..] == [];
    }
  }

  /** Encoding what was decoded (it is NUL-terminated) gives the text back exactly when its spare bits are zero. */
  lemma {:induction false} EncodeUndoesDecode(t: seq<uchar>)
    requires WellFormed(t)
    ensures Encoded(Decoded(t), 0) == t <==> Spare(t) == 0
    decreases |t|
  {
    if |t| == 4 {
      LastGroup(t);
    } else {
      var rest := t[4..];
      assert forall i :: 0 <= i < |rest| ==> rest[i] == t[i + 4];
      assert PadCount(rest) == PadCount(t) && Spare(rest) == Spare(t);
      EncodeUndoesDecode(rest);
      assert t == t[..4] + rest;
      FirstGroupBack(t[..4], rest);
    }
  }

  lemma FirstGroupBack(g: seq<uchar>, rest: seq<uchar>)
    requires |g| == 4 && |rest| >= 4 && |rest| % 4 == 0 && |g + rest| % 4 == 0
    requires forall i :: 0 <= i < 4 ==> InAlphabet(g[i])
    ensures Encoded(Decoded(g + rest), 0) == g + rest <==> Encoded(Decoded(rest), 0) == rest
  {
    var o := Octets(g[0], g[1], g[2], g[3]);
    PrependGroup(g, rest);
    GroupOfOctets(g[0], g[1], g[2], g[3]);
    assert (o + Decoded(rest))[3..] == Decoded(rest);
    assert g == [g[0], g[1], g[2], g[3]];
    Cancel(g, Encoded(Decoded(rest), 0), rest);
  }

  lemma GroupOfOctets(c0: uchar, c1: uchar, c2: uchar, c3: uchar)
    requires InAlphabet(c0) && InAlphabet(c1) && InAlphabet(c2) && InAlphabet(c3)
    ensures var o := Octets(c0, c1, c2, c3); Group(o[0], o[1], o[2]) == [c0, c1, c2, c3]
  {
    ValueLetter(c0);
    ValueLetter(c1);
    ValueLetter(c2);
    ValueLetter(c3);
    SextetsOfOctets(Value(c0), Value(c1), Value(c2), Value(c3));
  }
}
