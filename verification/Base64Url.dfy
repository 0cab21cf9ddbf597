/** The unpadded base64url codec of the token format (sections 3.2 and 5 of RFC 4648): the
    encoder strips the padding, the decoder restores it and then reads leniently, skipping
    characters outside the alphabet as the non-validating library decoder does. */
module Base64Url {
  import opened Json

  type byte = x: int | 0 <= x < 256
  type Bytes = seq<byte>

  function Sextet(v: nat): char
    requires v < 64
  {
    if v < 26 then (v + 65) as char
    else if v < 52 then (v + 71) as char
    else if v < 62 then (v - 4) as char
    else if v == 62 then '-' else '_'
  }

  /** The decoder first maps '-' to '+' and '_' to '/', so both spellings are read. */
  function Unsextet(c: char): (r: Option<nat>)
    ensures r.Some? ==> r.value < 64
  {
    if 'A' <= c <= 'Z' then Some(c as int - 65)
    else if 'a' <= c <= 'z' then Some(c as int - 71)
    else if '0' <= c <= '9' then Some(c as int + 4)
    else if c == '-' || c == '+' then Some(62)
    else if c == '_' || c == '/' then Some(63)
    else None
  }

  function EncodePadded(b: Bytes): string {
    if |b| == 0 then ""
    else if |b| == 1 then [Sextet(b[0] / 4), Sextet(b[0] % 4 * 16), '=', '=']
    else if |b| == 2 then [Sextet(b[0] / 4), Sextet(b[0] % 4 * 16 + b[1] / 16), Sextet(b[1] % 16 * 4), '=']
    else Group(b) + EncodePadded(b[3..])
  }

  function Group(b: Bytes): string
    requires |b| >= 3
  {
    [Sextet(b[0] / 4), Sextet(b[0] % 4 * 16 + b[1] / 16), Sextet(b[1] % 16 * 4 + b[2] / 64), Sextet(b[2] % 64)]
  }

  function RStrip(s: string): string {
    if s != "" && s[|s| - 1] == '=' then RStrip(s[..|s| - 1]) else s
  }

  /** `_b64u` */
  function Encode(b: Bytes): string {
    RStrip(EncodePadded(b))
  }

  function Pads(n: nat): string {
    seq(n, _ => '=')
  }

  ghost predicate LeftFits(quad: nat, left: nat) {
    quad <= 3 && (quad == 1 ==> left < 64) && (quad == 2 ==> left < 16) && (quad == 3 ==> left < 4)
  }

  /** The library's byte loop: `quad` sextets of the current group read, `left` their leftover bits. */
  function Scan(s: string, quad: nat, left: nat, pads: nat, out: Bytes): Option<Bytes>
    requires LeftFits(quad, left)
    decreases |s|
  {
    if s == "" then if quad == 0 then Some(out) else None
    else if s[0] == '=' then
      if quad >= 2 && quad + pads + 1 >= 4 then Some(out)
      else Scan(s[1..], quad, left, if quad >= 2 then pads + 1 else pads, out)
    else match Unsextet(s[0])
      case None => Scan(s[1..], quad, left, pads, out)
      case Some(v) => ScanSextet(s, v, quad, left, out)
  }

  function ScanSextet(s: string, v: nat, quad: nat, left: nat, out: Bytes): Option<Bytes>
    requires LeftFits(quad, left) && v < 64 && s != ""
    decreases |s|, 0
  {
    if quad == 0 then Scan(s[1..], 1, v, 0, out)
    else if quad == 1 then Scan(s[1..], 2, v % 16, 0, out + [left * 4 + v / 16])
    else if quad == 2 then Scan(s[1..], 3, v % 4, 0, out + [left * 16 + v / 4])
    else Scan(s[1..], 0, 0, 0, out + [left * 64 + v])
  }

  /** `_b64u_d`; None stands for the ValueError the caller catches. */
  function Decode(s: string): Option<Bytes> {
    if exists i :: 0 <= i < |s| && s[i] as int >= 128 then None
    else Scan(s + Pads((4 - |s| % 4) % 4), 0, 0, 0, [])
  }

  predicate InAlphabet(c: char) {
    'A' <= c <= 'Z' || 'a' <= c <= 'z' || '0' <= c <= '9' || c == '-' || c == '_'
  }

  // ---- encoder shape -----------------------------------------------------------

  /** Characters the padded form adds after the payload. */
  function PadCount(n: nat): nat {
    if n >= 3 then PadCount(n - 3) else if n == 0 then 0 else 3 - n
  }

  /** Whole groups of alphabet characters followed by k pads, k at most two. */
  ghost predicate Padded(s: string, k: nat) {
    && |s| % 4 == 0 && k <= 2 && k <= |s|
    && (forall i :: 0 <= i < |s| - k ==> InAlphabet(s[i]))
    && (forall i :: |s| - k <= i < |s| ==> s[i] == '=')
  }

  lemma {:induction false} PaddedShape(b: Bytes)
    ensures Padded(EncodePadded(b), PadCount(|b|))
  {
    if |b| >= 3 {
      hide Sextet, Padded;
      PaddedShape(b[3..]);
      GroupShape(b);
      PaddedCons(Group(b), EncodePadded(b[3..]), PadCount(|b|));
    }
  }

  lemma PaddedCons(g: string, t: string, k: nat)
    requires |g| == 4 && (forall i :: 0 <= i < 4 ==> InAlphabet(g[i])) && Padded(t, k)
    ensures Padded(g + t, k)
  {
    hide InAlphabet;
    forall i | 0 <= i < |g + t| - k ensures InAlphabet((g + t)[i]) {
      assert (g + t)[i] == if i < 4 then g[i] else t[i - 4];
    }
  }

  lemma GroupShape(b: Bytes)
    requires |b| >= 3
    ensures |Group(b)| == 4 && forall i :: 0 <= i < 4 ==> InAlphabet(Group(b)[i])
  {
  }

  lemma {:induction false} StripPads(s: string, k: nat)
    requires k <= |s| && (forall i :: |s| - k <= i < |s| ==> s[i] == '=')
    requires k < |s| ==> s[|s| - k - 1] != '='
    ensures RStrip(s) == s[..|s| - k]
  {
    if k == 0 {
    } else {
      StripPads(s[..|s| - 1], k - 1);
      assert s[..|s| - 1][..|s| - k] == s[..|s| - k];
    }
  }

  /** The encoding uses only the URL alphabet, and padding it back gives the padded form. */
  lemma EncodeShape(b: Bytes)
    ensures forall i :: 0 <= i < |Encode(b)| ==> InAlphabet(Encode(b)[i])
    ensures Encode(b) + Pads((4 - |Encode(b)| % 4) % 4) == EncodePadded(b)
  {
    hide EncodePadded, PadCount, RStrip;
    var s, k := EncodePadded(b), PadCount(|b|);
    PaddedShape(b);
    StripPads(s, k);
    assert |s[..|s| - k]| == |s| - k;
    assert (4 - (|s| - k) % 4) % 4 == k;
    assert s == s[..|s| - k] + Pads(k);
  }

  // ---- round trip ----------------------------------------------------------------

  lemma ScanOne(v: nat, rest: string, quad: nat, left: nat, pads: nat, out: Bytes)
    requires v < 64 && LeftFits(quad, left)
    ensures Scan([Sextet(v)] + rest, quad, left, pads, out) == ScanSextet([Sextet(v)] + rest, v, quad, left, out)
    ensures ([Sextet(v)] + rest)[1..] == rest
  {
  }

  lemma ScanTwo(v: nat, w: nat, rest: string, left: nat, out: Bytes)
    requires v < 64 && w < 64
    ensures Scan([Sextet(v), Sextet(w)] + rest, 0, left, 0, out) == Scan(rest, 2, w % 16, 0, out + [v * 4 + w / 16])
  {
    assert [Sextet(v), Sextet(w)] + rest == [Sextet(v)] + ([Sextet(w)] + rest);
    ScanOne(v, [Sextet(w)] + rest, 0, left, 0, out);
    ScanOne(w, rest, 1, v, 0, out);
  }

  lemma ScanFour(b: Bytes, rest: string, out: Bytes)
    requires |b| >= 3
    ensures Scan(Group(b) + rest, 0, 0, 0, out) == Scan(rest, 0, 0, 0, out + b[..3])
  {
    hide Scan, Sextet;
    var v, w := b[0] / 4, b[0] % 4 * 16 + b[1] / 16;
    var x, y := b[1] % 16 * 4 + b[2] / 64, b[2] % 64;
    var tail := [Sextet(x)] + ([Sextet(y)] + rest);
    assert Group(b) + rest == [Sextet(v), Sextet(w)] + tail;
    ScanTwo(v, w, tail, 0, out);
    var o1 := out + [v * 4 + w / 16];
    ScanOne(x, [Sextet(y)] + rest, 2, w % 16, 0, o1);
    var o2 := o1 + [w % 16 * 16 + x / 4];
    ScanOne(y, rest, 3, x % 4, 0, o2);
    assert o2 + [x % 4 * 64 + y] == out + b[..3];
  }

  lemma {:induction false} ScanPadded(b: Bytes, out: Bytes)
    ensures Scan(EncodePadded(b), 0, 0, 0, out) == Some(out + b)
  {
    if |b| == 0 {
      assert out + b == out;
    } else if |b| == 1 {
      ScanOnePadded(b, out);
    } else if |b| == 2 {
      ScanTwoPadded(b, out);
    } else {
      ScanFour(b, EncodePadded(b[3..]), out);
      ScanPadded(b[3..], out + b[..3]);
      assert out + b[..3] + b[3..] == out + b;
    }
  }

  lemma ScanOnePadded(b: Bytes, out: Bytes)
    requires |b| == 1
    ensures Scan(EncodePadded(b), 0, 0, 0, out) == Some(out + b)
  {
    var v, w := b[0] / 4, b[0] % 4 * 16;
    assert EncodePadded(b) == [Sextet(v), Sextet(w)] + ['=', '='];
    ScanTwo(v, w, ['=', '='], 0, out);
    assert ['=', '='][1..] == ['='];
    assert out + [v * 4 + w / 16] == out + b;
  }

  lemma ScanTwoPadded(b: Bytes, out: Bytes)
    requires |b| == 2
    ensures Scan(EncodePadded(b), 0, 0, 0, out) == Some(out + b)
  {
    var v, w, x := b[0] / 4, b[0] % 4 * 16 + b[1] / 16, b[1] % 16 * 4;
    assert EncodePadded(b) == [Sextet(v), Sextet(w)] + ([Sextet(x)] + ['=']);
    ScanTwo(v, w, [Sextet(x)] + ['='], 0, out);
    var o1 := out + [v * 4 + w / 16];
    ScanOne(x, ['='], 2, w % 16, 0, o1);
    assert o1 + [w % 16 * 16 + x / 4] == out + b;
  }

  /** Every byte string survives encoding and decoding. */
  lemma RoundTrip(b: Bytes)
    ensures Decode(Encode(b)) == Some(b)
  {
    EncodeShape(b);
    ScanPadded(b, []);
    assert [] + b == b;
  }

  // ---- the alphabet and the bits ---------------------------------------------------

  const UPPER := "ABCDEFGHIJKLMNOPQRSTUVWXYZ"
  const LOWER := "abcdefghijklmnopqrstuvwxyz"
  const DIGITS := "0123456789"
  const ALPHABET := UPPER + LOWER + DIGITS + "-_"

  /** Table 2 of RFC 4648; the reader also knows the two characters of Table 1. */
  lemma Alphabet(v: nat, c: char)
    requires v < 64
    ensures |ALPHABET| == 64 && Sextet(v) == ALPHABET[v]
    ensures Unsextet(c) == Some(v) <==> c == ALPHABET[v] || (c == '+' && v == 62) || (c == '/' && v == 63)
  {
    AlphabetAt(v);
    Inverse(v, c);
  }

  lemma AlphabetAt(v: nat)
    requires v < 64
    ensures |ALPHABET| == 64 && Sextet(v) == ALPHABET[v]
  {
    Letters(if v < 26 then v else if v < 52 then v - 26 else 0);
    Digit(if 52 <= v < 62 then v - 52 else 0);
  }

  lemma Letters(v: nat)
    requires v < 26
    ensures UPPER[v] as int == v + 65 && LOWER[v] as int == v + 97
  {
  }

  lemma Digit(v: nat)
    requires v < 10
    ensures DIGITS[v] as int == v + 48
  {
  }

  lemma Inverse(v: nat, c: char)
    requires v < 64
    ensures Unsextet(c) == Some(v) <==> c == Sextet(v) || (c == '+' && v == 62) || (c == '/' && v == 63)
  {
  }

  /** The number whose digits in base m are xs, most significant first. */
  function Number(xs: seq<int>, m: int): int {
    if xs == [] then 0 else Number(xs[..|xs| - 1], m) * m + xs[|xs| - 1]
  }

  lemma NumberSnoc(xs: seq<int>, x: int, m: int)
    ensures Number([], m) == 0 && Number(xs + [x], m) == Number(xs, m) * m + x
  {
    assert (xs + [x])[..|xs|] == xs;
  }

  lemma NumberThree(x: int, y: int, z: int, m: int)
    ensures Number([x, y, z], m) == (x * m + y) * m + z
  {
    hide Number;
    assert [] + [x] == [x] && [x] + [y] == [x, y] && [x, y] + [z] == [x, y, z];
    NumberSnoc([], x, m);
    NumberSnoc([x], y, m);
    NumberSnoc([x, y], z, m);
  }

  lemma NumberFour(w: int, x: int, y: int, z: int, m: int)
    ensures Number([w, x, y, z], m) == ((w * m + x) * m + y) * m + z
  {
    hide Number;
    assert [w, x, y] + [z] == [w, x, y, z];
    NumberThree(w, x, y, m);
    NumberSnoc([w, x, y], z, m);
  }

  lemma SameBits(x: int, y: int, z: int)
    requires 0 <= x < 256 && 0 <= y < 256 && 0 <= z < 256
    ensures Number([x / 4, x % 4 * 16 + y / 16, y % 16 * 4 + z / 64, z % 64], 64) == Number([x, y, z], 256)
  {
    hide Number;
    NumberThree(x, y, z, 256);
    NumberFour(x / 4, x % 4 * 16 + y / 16, y % 16 * 4 + z / 64, z % 64, 64);
  }

  lemma Within(g: string, t: string, n: nat)
    requires |g| == 4 && n + 4 <= |t|
    ensures (g + t)[n + 4..n + 8] == t[n..n + 4]
  {
  }

  /** Three bytes become four characters that carry their 24 bits, most significant first. */
  lemma {:induction false} EncodeBits(b: Bytes, i: nat) returns (v: seq<int>)
    requires 3 * i + 2 < |b|
    ensures |v| == 4 && (forall k :: 0 <= k < 4 ==> 0 <= v[k] < 64) && 4 * i + 4 <= |EncodePadded(b)|
    ensures EncodePadded(b)[4 * i..4 * i + 4] == [Sextet(v[0]), Sextet(v[1]), Sextet(v[2]), Sextet(v[3])]
    ensures Number(v, 64) == Number([b[3 * i], b[3 * i + 1], b[3 * i + 2]], 256)
    decreases i
  {
    var rest := EncodePadded(b[3..]);
    assert EncodePadded(b) == Group(b) + rest;
    hide EncodePadded, Sextet, Number;
    if i == 0 {
      v := [b[0] / 4, b[0] % 4 * 16 + b[1] / 16, b[1] % 16 * 4 + b[2] / 64, b[2] % 64];
      SameBits(b[0], b[1], b[2]);
    } else {
      v := EncodeBits(b[3..], i - 1);
      Within(Group(b), rest, 4 * (i - 1));
    }
  }

  /** One or two bytes left over become two or three characters and the padding; spare bits are zero. */
  function Leftover(t: Bytes): string
    requires |t| < 3
  {
    if |t| == 0 then ""
    else if |t| == 1 then [Sextet(t[0] / 4), Sextet(t[0] % 4 * 16), '=', '=']
    else [Sextet(t[0] / 4), Sextet(t[0] % 4 * 16 + t[1] / 16), Sextet(t[1] % 16 * 4), '=']
  }

  /** Behind the whole groups comes the last one, and nothing else. */
  lemma {:induction false} EncodeTail(b: Bytes, n: nat)
    requires 3 * n <= |b| < 3 * n + 3
    ensures 4 * n <= |EncodePadded(b)| && EncodePadded(b)[4 * n..] == Leftover(b[3 * n..])
    decreases n
  {
    hide EncodePadded, Leftover, Sextet;
    if n == 0 {
      ShortTail(b);
      assert b[0..] == b && EncodePadded(b)[0..] == EncodePadded(b);
    } else {
      EncodeTail(b[3..], n - 1);
      assert b[3..][3 * (n - 1)..] == b[3 * n..];
      EncodeUnroll(b);
      Behind(Group(b), EncodePadded(b[3..]), 4 * (n - 1));
    }
  }

  lemma ShortTail(b: Bytes)
    requires |b| < 3
    ensures EncodePadded(b) == Leftover(b)
  {
    hide Sextet, Group;
  }

  lemma EncodeUnroll(b: Bytes)
    requires |b| >= 3
    ensures EncodePadded(b) == Group(b) + EncodePadded(b[3..]) && |Group(b)| == 4
  {
  }

  lemma Behind(g: string, t: string, n: nat)
    requires |g| == 4 && n <= |t|
    ensures (g + t)[n + 4..] == t[n..]
  {
  }
}
