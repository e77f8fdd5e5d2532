/** Unpadded base64url (section 5 of RFC 4648), with a decoder that skips foreign characters. */
module Base64Url {
  import opened Options

  type Byte = b: int | 0 <= b < 256
  type Sextet = v: int | 0 <= v < 64

  function CharOf(v: Sextet): char {
    if v < 26 then 'A' + v as char
    else if v < 52 then 'a' + (v - 26) as char
    else if v < 62 then '0' + (v - 52) as char
    else if v == 62 then '-' else '_'
  }

  /** Both the URL-safe and the standard spelling of the last two digits are understood. */
  function ValueOf(c: char): Option<Sextet> {
    if 'A' <= c <= 'Z' then Some((c - 'A') as int)
    else if 'a' <= c <= 'z' then Some((c - 'a') as int + 26)
    else if '0' <= c <= '9' then Some((c - '0') as int + 52)
    else if c == '-' || c == '+' then Some(62)
    else if c == '_' || c == '/' then Some(63)
    else None
  }

  function First(a: int): Sextet
    requires 0 <= a < 256
  {
    a / 4
  }

  function Second(a: int, b: int): Sextet
    requires 0 <= a < 256 && 0 <= b < 256
  {
    a % 4 * 16 + b / 16
  }

  function Third(b: int, c: int): Sextet
    requires 0 <= b < 256 && 0 <= c < 256
  {
    b % 16 * 4 + c / 64
  }

  function Fourth(c: int): Sextet
    requires 0 <= c < 256
  {
    c % 64
  }

  function Split3(b: seq<Byte>): seq<Sextet> {
    if b == [] then []
    else if |b| == 1 then [First(b[0]), Second(b[0], 0)]
    else if |b| == 2 then [First(b[0]), Second(b[0], b[1]), Third(b[1], 0)]
    else [First(b[0]), Second(b[0], b[1]), Third(b[1], b[2]), Fourth(b[2])] + Split3(b[3..])
  }

  function Byte0(a: int, b: int): Byte
    requires 0 <= a < 64 && 0 <= b < 64
  {
    a * 4 + b / 16
  }

  function Byte1(a: int, b: int): Byte
    requires 0 <= a < 64 && 0 <= b < 64
  {
    a % 16 * 16 + b / 4
  }

  function Byte2(a: int, b: int): Byte
    requires 0 <= a < 64 && 0 <= b < 64
  {
    a % 4 * 64 + b
  }

  function Join4(v: seq<Sextet>): seq<Byte> {
    if |v| < 2 then []
    else if |v| == 2 then [Byte0(v[0], v[1])]
    else if |v| == 3 then [Byte0(v[0], v[1]), Byte1(v[1], v[2])]
    else [Byte0(v[0], v[1]), Byte1(v[1], v[2]), Byte2(v[2], v[3])] + Join4(v[4..])
  }

  function Spell(v: seq<Sextet>): string {
    if v == [] then [] else [CharOf(v[0])] + Spell(v[1..])
  }

  function Read(s: string): seq<Sextet> {
    if s == [] then []
    else (match ValueOf(s[0]) case Some(v) => [v] case None => []) + Read(s[1..])
  }

  function Encode(b: seq<Byte>): string {
    Spell(Split3(b))
  }

  function Decode(s: string): seq<Byte> {
    Join4(Read(s))
  }

  lemma CharRoundTrip(v: Sextet)
    ensures ValueOf(CharOf(v)) == Some(v) && CharOf(v) != '.' && CharOf(v) != '='
  {
  }

  lemma {:induction false} SpellRoundTrip(v: seq<Sextet>)
    ensures Read(Spell(v)) == v && '.' !in Spell(v) && '=' !in Spell(v) && |Spell(v)| == |v|
  {
    if v != [] {
      CharRoundTrip(v[0]);
      SpellRoundTrip(v[1..]);
      assert Spell(v)[1..] == Spell(v[1..]);
    }
  }

  lemma GroupRoundTrip(a: int, b: int, c: int)
    requires 0 <= a < 256 && 0 <= b < 256 && 0 <= c < 256
    ensures Byte0(First(a), Second(a, b)) == a
    ensures Byte1(Second(a, b), Third(b, c)) == b
    ensures Byte2(Third(b, c), Fourth(c)) == c
  {
  }

  lemma JoinGroup(group: seq<Sextet>, rest: seq<Sextet>)
    requires |group| == 4
    ensures Join4(group + rest)
         == [Byte0(group[0], group[1]), Byte1(group[1], group[2]), Byte2(group[2], group[3])] + Join4(rest)
  {
    assert (group + rest)[4..] == rest;
  }

  lemma JoinFirst(b: seq<Byte>)
    requires |b| >= 3
    ensures Join4(Split3(b)) == [b[0], b[1], b[2]] + Join4(Split3(b[3..]))
  {
    GroupRoundTrip(b[0], b[1], b[2]);
    JoinGroup([First(b[0]), Second(b[0], b[1]), Third(b[1], b[2]), Fourth(b[2])], Split3(b[3..]));
  }

  lemma JoinShort(x: Sextet, y: Sextet, z: Sextet)
    ensures Join4([x, y]) == [Byte0(x, y)]
    ensures Join4([x, y, z]) == [Byte0(x, y), Byte1(y, z)]
  {
  }

  lemma SplitShort(a: Byte, b: Byte)
    ensures Split3([a]) == [First(a), Second(a, 0)]
    ensures Split3([a, b]) == [First(a), Second(a, b), Third(b, 0)]
  {
  }

  lemma JoinOne(a: Byte)
    ensures Join4(Split3([a])) == [a]
  {
    SplitShort(a, 0);
    JoinShort(First(a), Second(a, 0), 0);
    GroupRoundTrip(a, 0, 0);
  }

  lemma JoinTwo(a: Byte, b: Byte)
    ensures Join4(Split3([a, b])) == [a, b]
  {
    SplitShort(a, b);
    JoinShort(First(a), Second(a, b), Third(b, 0));
    GroupRoundTrip(a, b, 0);
  }

  lemma JoinTail(b: seq<Byte>)
    requires |b| == 1 || |b| == 2
    ensures Join4(Split3(b)) == b
  {
    if |b| == 1 {
      JoinOne(b[0]);
      assert b == [b[0]];
    } else {
      JoinTwo(b[0], b[1]);
      assert b == [b[0], b[1]];
    }
  }

  lemma {:induction false} JoinRoundTrip(b: seq<Byte>)
    ensures Join4(Split3(b)) == b
    decreases |b|
  {
    if |b| >= 3 {
      JoinFirst(b);
      JoinRoundTrip(b[3..]);
      assert b == [b[0], b[1], b[2]] + b[3..];
    } else if |b| > 0 {
      JoinTail(b);
    }
  }

  lemma {:induction false} SplitLength(b: seq<Byte>)
    ensures |Split3(b)| == (4 * |b| + 2) / 3
    decreases |b|
  {
    if |b| >= 3 {
      SplitLength(b[3..]);
    }
  }

  /** Decoding inverts encoding, and the text has neither '.' nor padding. */
  lemma RoundTrip(b: seq<Byte>)
    ensures Decode(Encode(b)) == b
    ensures '.' !in Encode(b) && '=' !in Encode(b)
  {
    SpellRoundTrip(Split3(b));
    JoinRoundTrip(b);
  }

  // ---- the text itself ----

  /** Bytes past the end count as 0. */
  function ByteAt(b: seq<Byte>, i: nat): int {
    if i < |b| then b[i] else 0
  }

  /** The k-th six bits of the bytes, three bytes giving four of them, highest first. */
  function SixBits(b: seq<Byte>, k: nat): int {
    var group := ByteAt(b, k / 4 * 3) * 65536 + ByteAt(b, k / 4 * 3 + 1) * 256 + ByteAt(b, k / 4 * 3 + 2);
    if k % 4 == 0 then group / 262144
    else if k % 4 == 1 then group / 4096 % 64
    else if k % 4 == 2 then group / 64 % 64
    else group % 64
  }

  lemma SextetsOfGroup(f: Sextet, s: Sextet, t: Sextet, u: Sextet, group: int)
    requires group == f * 262144 + s * 4096 + t * 64 + u
    ensures group / 262144 == f && group / 4096 % 64 == s && group / 64 % 64 == t && group % 64 == u
  {
    assert group / 64 == f * 4096 + s * 64 + t;
    assert group / 4096 == f * 64 + s;
  }

  /** The four sextets make up the same number as the three bytes. */
  lemma GroupSum(a: int, b: int, c: int)
    requires 0 <= a < 256 && 0 <= b < 256 && 0 <= c < 256
    ensures a * 65536 + b * 256 + c == First(a) * 262144 + Second(a, b) * 4096 + Third(b, c) * 64 + Fourth(c)
  {
    var high, low := a / 4, a % 4;
    assert a == high * 4 + low;
    var top, bottom := b / 16, b % 16;
    assert b == top * 16 + bottom;
    var upper, rest := c / 64, c % 64;
    assert c == upper * 64 + rest;
    assert Second(a, b) == low * 16 + top && Third(b, c) == bottom * 4 + upper;
  }

  lemma GroupBits(a: int, b: int, c: int)
    requires 0 <= a < 256 && 0 <= b < 256 && 0 <= c < 256
    ensures var group := a * 65536 + b * 256 + c;
            && group / 262144 == First(a) && group / 4096 % 64 == Second(a, b)
            && group / 64 % 64 == Third(b, c) && group % 64 == Fourth(c)
  {
    GroupSum(a, b, c);
    var f, s, t, u := First(a), Second(a, b), Third(b, c), Fourth(c);
    SextetsOfGroup(f, s, t, u, a * 65536 + b * 256 + c);
  }

  lemma NextGroup(b: seq<Byte>, k: nat)
    requires |b| >= 3 && k >= 4
    ensures SixBits(b, k) == SixBits(b[3..], k - 4)
  {
    assert forall i: nat :: ByteAt(b[3..], i) == ByteAt(b, i + 3);
  }

  /** The first group of sextets, however many bytes there are for it. */
  lemma SplitHead(b: seq<Byte>, k: nat)
    requires k < 4 && k < |Split3(b)|
    ensures var x, y, z := ByteAt(b, 0), ByteAt(b, 1), ByteAt(b, 2);
            Split3(b)[k] == if k == 0 then First(x) else if k == 1 then Second(x, y)
                            else if k == 2 then Third(y, z) else Fourth(z)
  {
  }

  lemma SplitRest(b: seq<Byte>, k: nat)
    requires 4 <= k < |Split3(b)|
    ensures |b| >= 3 && k - 4 < |Split3(b[3..])| && Split3(b)[k] == Split3(b[3..])[k - 4]
  {
  }

  lemma HeadBits(b: seq<Byte>, k: nat)
    requires k < 4
    ensures var x, y, z := ByteAt(b, 0), ByteAt(b, 1), ByteAt(b, 2);
            SixBits(b, k) == if k == 0 then First(x) else if k == 1 then Second(x, y)
                             else if k == 2 then Third(y, z) else Fourth(z)
  {
    GroupBits(ByteAt(b, 0), ByteAt(b, 1), ByteAt(b, 2));
  }

  lemma {:induction false} SplitAtBits(b: seq<Byte>, k: nat)
    requires k < |Split3(b)|
    ensures Split3(b)[k] == SixBits(b, k)
    decreases |b|
  {
    if k < 4 {
      SplitHead(b, k);
      HeadBits(b, k);
    } else {
      SplitRest(b, k);
      NextGroup(b, k);
      SplitAtBits(b[3..], k - 4);
    }
  }

  lemma {:induction false} SpellAt(v: seq<Sextet>, k: nat)
    requires k < |v|
    ensures |Spell(v)| == |v| && Spell(v)[k] == CharOf(v[k])
  {
    SpellRoundTrip(v);
    if k > 0 {
      SpellAt(v[1..], k - 1);
    }
  }

  /**
   * The alphabet of section 5 of RFC 4648: the k-th character spells the k-th six bits as
   * 'A' to 'Z', 'a' to 'z', '0' to '9', '-' and '_', in this order.
   */
  lemma EncodedAlphabet(b: seq<Byte>, k: nat)
    requires k < |Encode(b)|
    ensures var v, c := SixBits(b, k), Encode(b)[k];
            && 0 <= v < 64
            && (v < 26 ==> c as int == 'A' as int + v)
            && (26 <= v < 52 ==> c as int == 'a' as int + v - 26)
            && (52 <= v < 62 ==> c as int == '0' as int + v - 52)
            && (v == 62 ==> c == '-') && (v == 63 ==> c == '_')
  {
    SpellRoundTrip(Split3(b));
    SplitAtBits(b, k);
    SpellAt(Split3(b), k);
  }

  /** Decoding takes the characters of both base64 alphabets for the same. */
  function Standard(s: string): string {
    if s == [] then []
    else [if s[0] == '-' then '+' else if s[0] == '_' then '/' else s[0]] + Standard(s[1..])
  }

  lemma {:induction false} ReadsStandard(s: string)
    ensures Read(Standard(s)) == Read(s)
  {
    if s != [] {
      ReadsStandard(s[1..]);
      assert Standard(s)[1..] == Standard(s[1..]);
    }
  }

  lemma DecodesBothAlphabets(b: seq<Byte>)
    ensures Decode(Standard(Encode(b))) == b
  {
    ReadsStandard(Encode(b));
    RoundTrip(b);
  }

  /** Three bytes take four characters, a rest of one or two takes one more than it has bytes. */
  lemma EncodedLength(b: seq<Byte>)
    ensures |Encode(b)| == (4 * |b| + 2) / 3
  {
    SpellRoundTrip(Split3(b));
    SplitLength(b);
  }
}
