/**
 * The java.lang.String operations the core relies on, over `seq<char>`:
 * `startsWith`, `contains`, ASCII `toUpperCase`, `String.join(",", ...)` and
 * `split(",")` with Java's rule that trailing empty segments are dropped.
 */
module Text {

  /** `s.startsWith(prefix)` */
  predicate StartsWith(s: string, prefix: string) {
    |prefix| <= |s| && s[..|prefix|] == prefix
  }

  /** `s.contains(sub)`: `sub` occurs at some offset of `s`. */
  predicate Contains(s: string, sub: string) {
    exists i :: 0 <= i <= |s| - |sub| && StartsWith(s[i..], sub)
  }

  /** A text cannot contain a pattern with a character the text lacks. */
  lemma MissingCharNotContained(s: string, sub: string, c: char)
    requires c in sub && c !in s
    ensures !Contains(s, sub)
  {
  }

  /** A prefix stays a prefix when the string is extended. */
  lemma StartsWithExtended(s: string, prefix: string, suffix: string)
    requires StartsWith(s, prefix)
    ensures StartsWith(s + suffix, prefix)
  {
    assert (s + suffix)[..|prefix|] == s[..|prefix|];
  }

  /** `Character.toUpperCase` restricted to the ASCII letters. */
  function UpperChar(c: char): (u: char)
    ensures 'a' <= c <= 'z' ==> 'A' <= u <= 'Z'
    ensures !('a' <= c <= 'z') ==> u == c
  {
    if 'a' <= c <= 'z' then (c as int - 32) as char else c
  }

  /** `Character.toLowerCase` restricted to the ASCII letters. */
  function LowerChar(c: char): (l: char)
    ensures 'A' <= c <= 'Z' ==> 'a' <= l <= 'z'
    ensures !('A' <= c <= 'Z') ==> l == c
  {
    if 'A' <= c <= 'Z' then (c as int + 32) as char else c
  }

  /** `s.toUpperCase()` for ASCII text: same length, every letter upper-cased in place. */
  function ToUpper(s: string): (u: string)
    ensures |u| == |s|
    ensures forall i :: 0 <= i < |s| ==> u[i] == UpperChar(s[i])
  {
    seq(|s|, i requires 0 <= i < |s| => UpperChar(s[i]))
  }

  /** `a.equalsIgnoreCase(b)` for ASCII text. */
  predicate EqualsIgnoreCase(a: string, b: string) {
    |a| == |b| && forall i :: 0 <= i < |a| ==> LowerChar(a[i]) == LowerChar(b[i])
  }

  /** `String.join(sep, xs)` */
  function Join(xs: seq<string>, sep: string): string
    decreases |xs|
  {
    if |xs| == 0 then ""
    else if |xs| == 1 then xs[0]
    else xs[0] + sep + Join(xs[1..], sep)
  }

  /** Every piece of `s` between commas, the empty ones included: |commas| + 1 pieces. */
  function Segments(s: string): (r: seq<string>)
    ensures |r| >= 1
    ensures forall k :: 0 <= k < |r| ==> ',' !in r[k]
    decreases |s|
  {
    if s == [] then [""]
    else if s[0] == ',' then [""] + Segments(s[1..])
    else
      var rest := Segments(s[1..]);
      [[s[0]] + rest[0]] + rest[1..]
  }

  /** Drops the empty strings at the end of `xs`. */
  function DropTrailingEmpty(xs: seq<string>): (r: seq<string>)
    ensures |r| <= |xs| && r == xs[..|r|]
    ensures |r| > 0 ==> r[|r| - 1] != ""
    ensures forall k :: |r| <= k < |xs| ==> xs[k] == ""
    decreases |xs|
  {
    if |xs| == 0 then []
    else if xs[|xs| - 1] == "" then DropTrailingEmpty(xs[..|xs| - 1])
    else xs
  }

  /**
   * `s.split(",")`: a string without a comma is returned whole (even the
   * empty string); otherwise the comma-separated pieces, trailing empty ones
   * removed.
   */
  function SplitOnComma(s: string): (r: seq<string>)
    ensures ',' !in s ==> r == [s]
    ensures forall k :: 0 <= k < |r| ==> ',' !in r[k]
  {
    if ',' !in s then [s] else DropTrailingEmpty(Segments(s))
  }

  /**
   * `Character.isWhitespace`: the ASCII controls TAB to CR and FS to US, and
   * the Unicode space, line and paragraph separators other than the
   * non-breaking spaces U+00A0, U+2007 and U+202F.
   */
  predicate IsWhitespace(c: char) {
    var n := c as int;
    n == 0x20 || 0x09 <= n <= 0x0D || 0x1C <= n <= 0x1F || n == 0x1680 ||
    0x2000 <= n <= 0x2006 || 0x2008 <= n <= 0x200A || n == 0x2028 || n == 0x2029 ||
    n == 0x205F || n == 0x3000
  }

  /** Spring's `StringUtils.hasText`: some character is not whitespace. */
  predicate HasText(s: string) {
    exists i :: 0 <= i < |s| && !IsWhitespace(s[i])
  }

  /** A role name that survives a join and a split: non-empty and free of commas. */
  predicate PlainItem(x: string) {
    x != "" && ',' !in x
  }

  /** Splitting at a leading comma-free piece followed by a comma. */
  lemma {:induction false} SegmentsAfterItem(a: string, rest: string)
    requires ',' !in a
    ensures Segments(a + "," + rest) == [a] + Segments(rest)
    decreases |a|
  {
    if a == [] {
      assert a + "," + rest == [','] + rest;
      assert ([','] + rest)[1..] == rest;
    } else {
      var s := a + "," + rest;
      assert s[0] == a[0] && s[1..] == a[1..] + "," + rest;
      SegmentsAfterItem(a[1..], rest);
      assert [a[0]] + a[1..] == a;
    }
  }

  /** A comma-free string is one segment. */
  lemma {:induction false} SegmentsOfItem(a: string)
    requires ',' !in a
    ensures Segments(a) == [a]
    decreases |a|
  {
    if a != [] {
      SegmentsOfItem(a[1..]);
      assert [a[0]] + a[1..] == a;
    }
  }

  /** Joining comma-free items with "," and cutting at every comma gives them back. */
  lemma {:induction false} SegmentsOfJoin(xs: seq<string>)
    requires |xs| >= 1
    requires forall k :: 0 <= k < |xs| ==> ',' !in xs[k]
    ensures Segments(Join(xs, ",")) == xs
    decreases |xs|
  {
    if |xs| == 1 {
      SegmentsOfItem(xs[0]);
    } else {
      SegmentsOfJoin(xs[1..]);
      SegmentsAfterItem(xs[0], Join(xs[1..], ","));
      assert [xs[0]] + xs[1..] == xs;
    }
  }

  /**
   * Round trip: `String.join(",", xs).split(",")` is `xs` for a non-empty
   * list of non-empty, comma-free items.
   */
  lemma {:induction false} SplitJoinRoundTrip(xs: seq<string>)
    requires |xs| >= 1
    requires forall k :: 0 <= k < |xs| ==> PlainItem(xs[k])
    ensures SplitOnComma(Join(xs, ",")) == xs
  {
    if |xs| == 1 {
      assert Join(xs, ",") == xs[0];
    } else {
      var s := Join(xs, ",");
      assert s == xs[0] + "," + Join(xs[1..], ",");
      assert s[|xs[0]|] == ',';
      SegmentsOfJoin(xs);
      assert xs[|xs| - 1] != "";
    }
  }

  /** Joining the pieces `Segments` cuts out with commas gives the string back. */
  lemma {:induction false} SegmentsJoin(s: string)
    ensures Join(Segments(s), ",") == s
    decreases |s|
  {
    if s != [] {
      var rest := Segments(s[1..]);
      SegmentsJoin(s[1..]);
      assert s == [s[0]] + s[1..];
      if s[0] == ',' {
        JoinEmptyHead(rest);
      } else {
        JoinExtendedHead(s[0], rest);
      }
    }
  }

  /** An empty first item contributes only its comma. */
  lemma JoinEmptyHead(rest: seq<string>)
    requires |rest| >= 1
    ensures Join([""] + rest, ",") == "," + Join(rest, ",")
  {
    assert ([""] + rest)[1..] == rest;
  }

  /** A character put in front of the first item comes first in the join. */
  lemma JoinExtendedHead(c: char, rest: seq<string>)
    requires |rest| >= 1
    ensures Join([[c] + rest[0]] + rest[1..], ",") == [c] + Join(rest, ",")
  {
    if |rest| > 1 {
      assert ([[c] + rest[0]] + rest[1..])[1..] == rest[1..];
    }
  }

  /** Joining one more item. */
  lemma {:induction false} JoinSnoc(xs: seq<string>, y: string, sep: string)
    requires |xs| >= 1
    ensures Join(xs + [y], sep) == Join(xs, sep) + sep + y
    decreases |xs|
  {
    if |xs| == 1 {
      assert (xs + [y])[1..] == [y];
    } else {
      assert (xs + [y])[1..] == xs[1..] + [y];
      JoinSnoc(xs[1..], y, sep);
    }
  }

  /** Empty items after position k add one comma each to the join. */
  lemma {:induction false} JoinTrailingEmpties(xs: seq<string>, k: nat)
    requires 1 <= k <= |xs|
    requires forall j :: k <= j < |xs| ==> xs[j] == ""
    ensures Join(xs, ",") == Join(xs[..k], ",") + seq(|xs| - k, _ => ',')
    decreases |xs| - k
  {
    if k == |xs| {
      assert xs[..k] == xs;
    } else {
      var init := xs[..|xs| - 1];
      JoinTrailingEmpties(init, k);
      assert init + [""] == xs;
      JoinSnoc(init, "", ",");
      assert init[..k] == xs[..k];
      assert seq(|init| - k, _ => ',') + "," == seq(|xs| - k, _ => ',');
    }
  }

  /** Items that are all empty join to commas only. */
  lemma {:induction false} JoinOfEmpties(xs: seq<string>)
    requires forall k :: 0 <= k < |xs| ==> xs[k] == ""
    ensures forall i :: 0 <= i < |Join(xs, ",")| ==> Join(xs, ",")[i] == ','
    decreases |xs|
  {
    if |xs| > 1 {
      JoinOfEmpties(xs[1..]);
      assert Join(xs, ",") == "," + Join(xs[1..], ",");
    }
  }

  /**
   * `split(",")` loses only trailing commas: the pieces joined with commas,
   * followed by one comma per dropped empty piece, give the string back;
   * when no piece is left, the string held commas only.
   */
  lemma SplitOnCommaContent(s: string)
    ensures |SplitOnComma(s)| <= |Segments(s)|
    ensures |SplitOnComma(s)| > 0 ==>
      s == Join(SplitOnComma(s), ",") + seq(|Segments(s)| - |SplitOnComma(s)|, _ => ',')
    ensures |SplitOnComma(s)| == 0 ==> forall i :: 0 <= i < |s| ==> s[i] == ','
  {
    SegmentsJoin(s);
    var xs := Segments(s);
    if ',' !in s {
      SegmentsOfItem(s);
    } else {
      var r := DropTrailingEmpty(xs);
      if |r| > 0 {
        JoinTrailingEmpties(xs, |r|);
      } else {
        JoinOfEmpties(xs);
      }
    }
  }

  /** The round trip needs non-empty items: an empty last role is lost. */
  lemma EmptyItemIsLost()
    ensures SplitOnComma(Join(["ROLE_USER", ""], ",")) == ["ROLE_USER"]
  {
    var s := Join(["ROLE_USER", ""], ",");
    assert s == "ROLE_USER,";
    SegmentsAfterItem("ROLE_USER", "");
    assert Segments("ROLE_USER,") == ["ROLE_USER", ""];
    assert ',' in s by { assert s[9] == ','; }
  }

  /** A subset of a finite set of strings is no larger than the set. */
  lemma SubsetSize(a: set<string>, b: set<string>)
    requires a <= b
    ensures |a| <= |b|
  {
    assert b == a + (b - a);
  }

  /** An octet. */
  newtype byte = x: int | 0 <= x < 0x100

  /** A UTF-8 continuation byte: 10xxxxxx. */
  predicate Continuation(b: byte) {
    0x80 <= b as int < 0xC0
  }

  /**
   * The UTF-8 encoding of one Unicode scalar value: one byte below U+0080,
   * otherwise a lead byte announcing the length followed by continuation bytes.
   */
  function EncodeChar(c: char): (b: seq<byte>)
    ensures 1 <= |b| <= 4
    ensures |b| == 1 <==> c as int < 0x80
    ensures |b| == 1 ==> b[0] as int == c as int
    ensures |b| == 2 ==> 0xC0 <= b[0] as int < 0xE0
    ensures |b| == 3 ==> 0xE0 <= b[0] as int < 0xF0
    ensures |b| == 4 ==> 0xF0 <= b[0] as int < 0xF8
    ensures forall k :: 1 <= k < |b| ==> Continuation(b[k])
  {
    var n := c as int;
    if n < 0x80 then [n as byte]
    else if n < 0x800 then [(0xC0 + n / 0x40) as byte, (0x80 + n % 0x40) as byte]
    else if n < 0x1_0000 then
      [(0xE0 + n / 0x1000) as byte, (0x80 + n / 0x40 % 0x40) as byte, (0x80 + n % 0x40) as byte]
    else
      [(0xF0 + n / 0x4_0000) as byte, (0x80 + n / 0x1000 % 0x40) as byte,
       (0x80 + n / 0x40 % 0x40) as byte, (0x80 + n % 0x40) as byte]
  }

  /**
   * The code point a one- to four-byte UTF-8 sequence carries: the payload
   * bits of the lead byte followed by six bits from each continuation byte.
   */
  function DecodeChar(b: seq<byte>): int
    requires 1 <= |b| <= 4
  {
    if |b| == 1 then b[0] as int
    else if |b| == 2 then (b[0] as int - 0xC0) * 0x40 + (b[1] as int - 0x80)
    else if |b| == 3 then ((b[0] as int - 0xE0) * 0x40 + (b[1] as int - 0x80)) * 0x40 + (b[2] as int - 0x80)
    else (((b[0] as int - 0xF0) * 0x40 + (b[1] as int - 0x80)) * 0x40 + (b[2] as int - 0x80)) * 0x40 + (b[3] as int - 0x80)
  }

  /** Every encoding decodes back to its character. */
  lemma EncodeCharDecodes(c: char)
    ensures DecodeChar(EncodeChar(c)) == c as int
  {
    var n := c as int;
    if n >= 0x800 {
      SixBitGroups(n, 0x40);
    }
    if n >= 0x1_0000 {
      SixBitGroups(n, 0x1000);
    }
  }

  /** Splitting off the next six bits: dividing by 64 more, then the six bits below. */
  lemma SixBitGroups(n: int, unit: int)
    requires 0 <= n && (unit == 0x40 || unit == 0x1000)
    ensures n / (unit * 0x40) * 0x40 + n / unit % 0x40 == n / unit
  {
    var q := n / unit;
    assert q / 0x40 * 0x40 + q % 0x40 == q;
    if unit == 0x40 {
      assert n / 0x1000 == q / 0x40;
    } else {
      assert n / 0x4_0000 == q / 0x40;
    }
  }

  /** `s.getBytes(StandardCharsets.UTF_8)` */
  function Utf8(s: string): (b: seq<byte>)
    ensures |s| <= |b| <= 4 * |s|
    decreases |s|
  {
    if s == [] then [] else EncodeChar(s[0]) + Utf8(s[1..])
  }

  /** Encoding is character by character: the encoding of a concatenation is the concatenation of the encodings. */
  lemma {:induction false} Utf8Append(s: string, t: string)
    ensures Utf8(s + t) == Utf8(s) + Utf8(t)
    decreases |s|
  {
    if s != [] {
      assert (s + t)[0] == s[0] && (s + t)[1..] == s[1..] + t;
      Utf8Append(s[1..], t);
      assert Utf8(s + t) == EncodeChar(s[0]) + Utf8(s[1..] + t);
      assert Utf8(s) == EncodeChar(s[0]) + Utf8(s[1..]);
      assert EncodeChar(s[0]) + (Utf8(s[1..]) + Utf8(t)) == (EncodeChar(s[0]) + Utf8(s[1..])) + Utf8(t);
    } else {
      assert s + t == t;
    }
  }

  /** ASCII text encodes to one byte per character, each byte the character's code. */
  lemma {:induction false} AsciiUtf8(s: string)
    requires forall k :: 0 <= k < |s| ==> s[k] as int < 0x80
    ensures |Utf8(s)| == |s|
    ensures forall k :: 0 <= k < |s| ==> Utf8(s)[k] as int == s[k] as int
    decreases |s|
  {
    if s != [] {
      AsciiUtf8(s[1..]);
    }
  }
}
