/** UUIDs as the rows and the JSON export carry them: `str(u)` renders one, `uuid.UUID(s)` reads
    one back (reading fails with `ValueError`, which is `None` here). */
module Uuids {
  import opened Wrappers

  type Nibble = d: int | 0 <= d < 16

  /** A UUID as its 32 hexadecimal digits, most significant first. */
  type Uuid = s: seq<Nibble> | |s| == 32 witness seq(32, i => 0)

  /** The lower-case hexadecimal digit `str(u)` writes for `d`. */
  function HexChar(d: Nibble): char {
    if d < 10 then ('0' as int + d) as char else ('a' as int + d - 10) as char
  }

  predicate IsHexChar(c: char) {
    '0' <= c <= '9' || 'a' <= c <= 'f' || 'A' <= c <= 'F'
  }

  /** The value `int(c, 16)` gives a hexadecimal digit, in either case. */
  function HexValue(c: char): Nibble
    requires IsHexChar(c)
  {
    if '0' <= c <= '9' then c as int - '0' as int
    else if 'a' <= c <= 'f' then c as int - 'a' as int + 10
    else c as int - 'A' as int + 10
  }

  function HexString(ds: seq<Nibble>): (s: string)
    ensures |s| == |ds|
    ensures forall i | 0 <= i < |ds| :: s[i] == HexChar(ds[i])
  {
    seq(|ds|, i requires 0 <= i < |ds| => HexChar(ds[i]))
  }

  /** `x + "-" + y` */
  function Dash(x: string, y: string): string {
    x + "-" + y
  }

  /** `str(u)`: lower-case hexadecimal digits in groups of 8-4-4-4-12 joined by '-'. */
  function Format(u: Uuid): (s: string)
    ensures |s| == 36
    ensures s[8] == '-' && s[13] == '-' && s[18] == '-' && s[23] == '-'
    ensures s[..8] == HexString(u[..8])
  {
    Dash(HexString(u[..8]), Dash(HexString(u[8..12]), Dash(HexString(u[12..16]),
      Dash(HexString(u[16..20]), HexString(u[20..])))))
  }

  /** Python's `s.replace(pat, '')`: occurrences removed left to right, without overlap. */
  function RemoveAll(s: string, pat: string): (r: string)
    requires pat != []
    decreases |s|
  {
    if s == [] then []
    else if pat <= s then RemoveAll(s[|pat|..], pat)
    else [s[0]] + RemoveAll(s[1..], pat)
  }

  predicate IsBrace(c: char) {
    c == '{' || c == '}'
  }

  /** Python's `s.strip('{}')`. */
  function StripBraces(s: string): string
    decreases |s|
  {
    if s != [] && IsBrace(s[0]) then StripBraces(s[1..])
    else if s != [] && IsBrace(s[|s| - 1]) then StripBraces(s[..|s| - 1])
    else s
  }

  /** Python's `s.replace('-', '')`. */
  function RemoveDashes(s: string): string {
    if s == [] then [] else (if s[0] == '-' then [] else [s[0]]) + RemoveDashes(s[1..])
  }

  /** `uuid.UUID(s)` for a string argument: drop "urn:" and "uuid:", strip braces, drop dashes,
      then exactly 32 hexadecimal digits must remain. */
  function Parse(s: string): (r: Option<Uuid>)
    ensures r.Some? ==> |RemoveDashes(StripBraces(RemoveAll(RemoveAll(s, "urn:"), "uuid:")))| == 32
  {
    var h := RemoveDashes(StripBraces(RemoveAll(RemoveAll(s, "urn:"), "uuid:")));
    if |h| == 32 && forall i | 0 <= i < 32 :: IsHexChar(h[i])
    then Some(seq(32, i requires 0 <= i < 32 => HexValue(h[i])))
    else None
  }

  lemma {:induction false} RemoveAllAbsent(s: string, pat: string)
    requires pat != [] && ':' in pat && ':' !in s
    ensures RemoveAll(s, pat) == s
  {
    if s != [] {
      assert !(pat <= s);
      RemoveAllAbsent(s[1..], pat);
      assert [s[0]] + s[1..] == s;
    }
  }

  lemma {:induction false} RemoveDashesAppend(a: string, b: string)
    ensures RemoveDashes(a + b) == RemoveDashes(a) + RemoveDashes(b)
  {
    if a != [] {
      RemoveDashesAppend(a[1..], b);
      assert (a + b)[1..] == a[1..] + b;
    } else {
      assert a + b == b;
    }
  }

  lemma RemoveDashesDash(x: string, y: string)
    ensures RemoveDashes(Dash(x, y)) == RemoveDashes(x) + RemoveDashes(y)
  {
    RemoveDashesAppend(x + "-", y);
    RemoveDashesAppend(x, "-");
  }

  lemma {:induction false} RemoveDashesHex(ds: seq<Nibble>)
    ensures RemoveDashes(HexString(ds)) == HexString(ds)
  {
    if ds != [] {
      RemoveDashesHex(ds[1..]);
      assert HexString(ds)[1..] == HexString(ds[1..]);
      assert [HexString(ds)[0]] + HexString(ds)[1..] == HexString(ds);
    }
  }

  lemma HexStringAppend(x: seq<Nibble>, y: seq<Nibble>)
    ensures HexString(x + y) == HexString(x) + HexString(y)
  {
  }

  lemma NoColonHex(ds: seq<Nibble>)
    ensures ':' !in HexString(ds) && '{' !in HexString(ds) && '}' !in HexString(ds)
  {
  }

  lemma FormatDashes(u: Uuid)
    ensures RemoveDashes(Format(u)) == HexString(u)
  {
    var a, b, c, d, e := u[..8], u[8..12], u[12..16], u[16..20], u[20..];
    assert u == a + (b + (c + (d + e)));
    HexStringAppend(d, e);
    HexStringAppend(c, d + e);
    HexStringAppend(b, c + (d + e));
    HexStringAppend(a, b + (c + (d + e)));
    var ha, hb, hc, hd, he := HexString(a), HexString(b), HexString(c), HexString(d), HexString(e);
    RemoveDashesDash(hd, he);
    RemoveDashesDash(hc, Dash(hd, he));
    RemoveDashesDash(hb, Dash(hc, Dash(hd, he)));
    RemoveDashesDash(ha, Dash(hb, Dash(hc, Dash(hd, he))));
    RemoveDashesHex(a); RemoveDashesHex(b); RemoveDashesHex(c); RemoveDashesHex(d); RemoveDashesHex(e);
  }

  lemma FormatPlain(u: Uuid)
    ensures StripBraces(RemoveAll(RemoveAll(Format(u), "urn:"), "uuid:")) == Format(u)
  {
    var a, b, c, d, e := u[..8], u[8..12], u[12..16], u[16..20], u[20..];
    NoColonHex(a); NoColonHex(b); NoColonHex(c); NoColonHex(d); NoColonHex(e);
    var f := Format(u);
    assert ':' !in f;
    RemoveAllAbsent(f, "urn:");
    RemoveAllAbsent(f, "uuid:");
    assert f[0] == HexChar(a[0]) && f[|f| - 1] == HexChar(e[11]);
  }

  /** Reading back what `str(u)` writes gives `u`: the export/import round trip of order ids
      and product ids. */
  lemma ParseFormat(u: Uuid)
    ensures Parse(Format(u)) == Some(u)
  {
    FormatPlain(u);
    FormatDashes(u);
    var h := HexString(u);
    assert RemoveDashes(StripBraces(RemoveAll(RemoveAll(Format(u), "urn:"), "uuid:"))) == h;
    assert forall i | 0 <= i < 32 :: IsHexChar(h[i]) && HexValue(h[i]) == u[i];
    assert seq(32, i requires 0 <= i < 32 => HexValue(h[i])) == u;
  }
}
