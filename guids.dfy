/** Globally unique identifiers: 128-bit values, their canonical text form
    (lowercase hexadecimal in groups of 8-4-4-4-12, section 3 of RFC 4122),
    and a parser that accepts exactly that form. */
module Guids {

  newtype byte = x: int | 0 <= x < 256

  type Bytes16 = s: seq<byte> | |s| == 16 witness [0, 0, 0, 0, 0, 0, 0, 0, 0, 0, 0, 0, 0, 0, 0, 0]

  /** A GUID, its sixteen bytes in the order its text form shows them. */
  datatype Guid = Guid(bytes: Bytes16)

  datatype Option<T> = None | Some(value: T)

  /** The all-zero GUID, which the platform reads as "no known writer". */
  const Empty: Guid := Guid([0, 0, 0, 0, 0, 0, 0, 0, 0, 0, 0, 0, 0, 0, 0, 0])

  predicate IsHexDigit(c: char) {
    '0' <= c <= '9' || 'a' <= c <= 'f'
  }

  predicate IsHex(s: string) {
    forall i :: 0 <= i < |s| ==> IsHexDigit(s[i])
  }

  function HexDigit(n: int): (c: char)
    requires 0 <= n < 16
    ensures IsHexDigit(c)
  {
    if n < 10 then ('0' as int + n) as char else ('a' as int + (n - 10)) as char
  }

  function HexValue(c: char): (n: int)
    requires IsHexDigit(c)
    ensures 0 <= n < 16 && HexDigit(n) == c
  {
    if c <= '9' then c as int - '0' as int else c as int - 'a' as int + 10
  }

  lemma HexValueOfDigit(n: int)
    requires 0 <= n < 16
    ensures HexValue(HexDigit(n)) == n
  {
  }

  /** Two hexadecimal digits per byte, high nibble first. */
  function Hex(bs: seq<byte>): (s: string)
    ensures |s| == 2 * |bs| && IsHex(s)
  {
    if bs == [] then []
    else [HexDigit(bs[0] as int / 16), HexDigit(bs[0] as int % 16)] + Hex(bs[1..])
  }

  /** Reads a string of hexadecimal digit pairs back into bytes. */
  function UnHex(s: string): (r: Option<seq<byte>>)
    ensures r.Some? <==> |s| % 2 == 0 && IsHex(s)
    ensures r.Some? ==> 2 * |r.value| == |s|
    decreases |s|
  {
    if s == [] then Some([])
    else if |s| < 2 || !IsHexDigit(s[0]) || !IsHexDigit(s[1]) then None
    else
      var rest := UnHex(s[2..]);
      assert IsHex(s) ==> IsHex(s[2..]);
      if rest.None? then None
      else Some([(HexValue(s[0]) * 16 + HexValue(s[1])) as byte] + rest.value)
  }

  lemma {:induction false} UnHexOfHex(bs: seq<byte>)
    ensures UnHex(Hex(bs)) == Some(bs)
  {
    if bs != [] {
      var s := Hex(bs);
      assert s[2..] == Hex(bs[1..]);
      UnHexOfHex(bs[1..]);
      HexValueOfDigit(bs[0] as int / 16);
      HexValueOfDigit(bs[0] as int % 16);
      assert [bs[0]] + bs[1..] == bs;
    }
  }

  lemma {:induction false} HexOfUnHex(s: string)
    requires UnHex(s).Some?
    ensures Hex(UnHex(s).value) == s
  {
    if s != [] {
      var hi, lo := HexValue(s[0]), HexValue(s[1]);
      var b := (hi * 16 + lo) as byte;
      assert UnHex(s).value == [b] + UnHex(s[2..]).value;
      HexOfUnHex(s[2..]);
      assert b as int / 16 == hi && b as int % 16 == lo;
      assert ([b] + UnHex(s[2..]).value)[1..] == UnHex(s[2..]).value;
      assert s == [s[0], s[1]] + s[2..];
    }
  }

  /** The canonical form: hyphens at positions 8, 13, 18 and 23, lowercase
      hexadecimal digits everywhere else, 36 characters in all. */
  predicate IsCanonical(s: string) {
    && |s| == 36
    && s[8] == '-' && s[13] == '-' && s[18] == '-' && s[23] == '-'
    && IsHex(s[..8]) && IsHex(s[9..13]) && IsHex(s[14..18]) && IsHex(s[19..23]) && IsHex(s[24..])
  }

  /** The text form of a GUID (the platform's default GUID formatting). */
  function ToString(g: Guid): (s: string)
    ensures IsCanonical(s)
  {
    var b := g.bytes;
    var s := Hex(b[..4]) + "-" + Hex(b[4..6]) + "-" + Hex(b[6..8]) + "-" + Hex(b[8..10]) + "-" + Hex(b[10..]);
    assert s[..8] == Hex(b[..4]) && s[9..13] == Hex(b[4..6]) && s[14..18] == Hex(b[6..8]);
    assert s[19..23] == Hex(b[8..10]) && s[24..] == Hex(b[10..]);
    s
  }

  lemma GroupsOfToString(g: Guid)
    ensures var s, b := ToString(g), g.bytes;
      && s[..8] == Hex(b[..4]) && s[9..13] == Hex(b[4..6]) && s[14..18] == Hex(b[6..8])
      && s[19..23] == Hex(b[8..10]) && s[24..] == Hex(b[10..])
  {
  }

  /** Cutting a canonical string at its four hyphens and joining the pieces back gives it again. */
  lemma CanonicalJoin(s: string)
    requires IsCanonical(s)
    ensures s == s[..8] + "-" + s[9..13] + "-" + s[14..18] + "-" + s[19..23] + "-" + s[24..]
  {
  }

  lemma SlicesOfGroups(p1: seq<byte>, p2: seq<byte>, p3: seq<byte>, p4: seq<byte>, p5: seq<byte>)
    requires |p1| == 4 && |p2| == 2 && |p3| == 2 && |p4| == 2 && |p5| == 6
    ensures var b := p1 + p2 + p3 + p4 + p5;
      b[..4] == p1 && b[4..6] == p2 && b[6..8] == p3 && b[8..10] == p4 && b[10..] == p5
  {
  }

  lemma ToStringOfGroups(s: string, p1: seq<byte>, p2: seq<byte>, p3: seq<byte>, p4: seq<byte>, p5: seq<byte>)
    requires IsCanonical(s)
    requires UnHex(s[..8]) == Some(p1) && UnHex(s[9..13]) == Some(p2) && UnHex(s[14..18]) == Some(p3)
    requires UnHex(s[19..23]) == Some(p4) && UnHex(s[24..]) == Some(p5)
    ensures |p1 + p2 + p3 + p4 + p5| == 16
    ensures ToString(Guid(p1 + p2 + p3 + p4 + p5)) == s
  {
    SlicesOfGroups(p1, p2, p3, p4, p5);
    HexOfUnHex(s[..8]);
    HexOfUnHex(s[9..13]);
    HexOfUnHex(s[14..18]);
    HexOfUnHex(s[19..23]);
    HexOfUnHex(s[24..]);
    CanonicalJoin(s);
  }

  /** Parses the canonical form. Like the platform's GUID.TryParse, it
      reports success and, on failure, leaves the result at the all-zero GUID. */
  function TryParse(s: string): (r: (bool, Guid))
    ensures r.0 <==> IsCanonical(s)
    ensures r.0 ==> ToString(r.1) == s
    ensures !r.0 ==> r.1 == Empty
  {
    if |s| != 36 || s[8] != '-' || s[13] != '-' || s[18] != '-' || s[23] != '-' then (false, Empty)
    else
      match (UnHex(s[..8]), UnHex(s[9..13]), UnHex(s[14..18]), UnHex(s[19..23]), UnHex(s[24..]))
      case (Some(p1), Some(p2), Some(p3), Some(p4), Some(p5)) =>
        ToStringOfGroups(s, p1, p2, p3, p4, p5);
        (true, Guid(p1 + p2 + p3 + p4 + p5))
      case _ => (false, Empty)
  }

  /** Parsing inverts formatting. */
  lemma TryParseToString(g: Guid)
    ensures TryParse(ToString(g)) == (true, g)
  {
    var s, b := ToString(g), g.bytes;
    GroupsOfToString(g);
    UnHexOfHex(b[..4]);
    UnHexOfHex(b[4..6]);
    UnHexOfHex(b[6..8]);
    UnHexOfHex(b[8..10]);
    UnHexOfHex(b[10..]);
    assert b[..4] + b[4..6] + b[6..8] + b[8..10] + b[10..] == b;
  }

  /** Distinct GUIDs have distinct text forms. */
  lemma ToStringInjective(g1: Guid, g2: Guid)
    ensures ToString(g1) == ToString(g2) ==> g1 == g2
  {
    TryParseToString(g1);
    TryParseToString(g2);
  }

  lemma HexOfZeros()
    ensures Hex([0, 0]) == "0000" && Hex([0, 0, 0, 0]) == "00000000"
    ensures Hex([0, 0, 0, 0, 0, 0]) == "000000000000"
  {
  }

  lemma GroupsOfEmpty()
    ensures var b := Empty.bytes;
      && b[..4] == [0, 0, 0, 0] && b[4..6] == [0, 0] && b[6..8] == [0, 0]
      && b[8..10] == [0, 0] && b[10..] == [0, 0, 0, 0, 0, 0]
  {
  }

  lemma ToStringOfEmpty()
    ensures ToString(Empty) == Hex([0, 0, 0, 0]) + "-" + Hex([0, 0]) + "-" + Hex([0, 0]) + "-" + Hex([0, 0]) + "-" + Hex([0, 0, 0, 0, 0, 0])
  {
    GroupsOfEmpty();
  }

  lemma JoinZeros()
    ensures "00000000" + "-" + "0000" + "-" + "0000" + "-" + "0000" + "-" + "000000000000" == "00000000-0000-0000-0000-000000000000"
  {
  }

  /** The text form of the all-zero GUID. */
  lemma EmptyToString()
    ensures ToString(Empty) == "00000000-0000-0000-0000-000000000000"
  {
    ToStringOfEmpty();
    HexOfZeros();
    JoinZeros();
  }
}
