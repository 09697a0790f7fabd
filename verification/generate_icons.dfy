/**
  The non-drawing logic of the icon generator script: the colour parser `hex_to_rgb`,
  the file name of each icon, and the loop of `generate_all_icons` over the table of
  sizes, which turns a name given as a single string into a one-element list.
 */
module GenerateIcons {
  import opened Wrappers
  import opened Numerals

  /** The triple `hex_to_rgb` returns. */
  datatype Rgb = Rgb(r: int, g: int, b: int)

  const GradientTop: string := "#00a19a"
  const GradientBottom: string := "#006d68"

  // ---------------------------------------------------------------------------
  // String helpers with Python's meaning

  /** `s.lstrip(c)`: every leading `c` is removed, not just one. */
  function LStrip(s: string, c: char): (r: string)
    ensures |r| <= |s| && r == s[|s| - |r|..]
    ensures forall i :: 0 <= i < |s| - |r| ==> s[i] == c
    ensures r == [] || r[0] != c
  {
    if s != [] && s[0] == c then LStrip(s[1..], c) else s
  }

  /** Python's slice `s[i:j]` for 0 <= i <= j: indices past the end are clamped. */
  function Slice(s: string, i: nat, j: nat): (r: string)
    requires i <= j
    ensures |r| == (if |s| <= i then 0 else if |s| < j then |s| - i else j - i)
    ensures forall k :: 0 <= k < |r| ==> r[k] == s[i + k]
  {
    if |s| <= i then [] else if |s| < j then s[i..] else s[i..j]
  }

  /**
    The characters `int()` strips around a numeral: the ASCII whitespace that C's
    `isspace` accepts, and the non-ASCII characters for which `str.isspace` holds
    (`int()` turns those into a space first). U+001C to U+001F are not stripped.
   */
  predicate IsIntWhitespace(c: char) {
    || c == ' ' || '\t' <= c <= '\r'
    || c == '\U{85}' || c == '\U{a0}' || c == '\U{1680}'
    || '\U{2000}' <= c <= '\U{200a}' || c == '\U{2028}' || c == '\U{2029}'
    || c == '\U{202f}' || c == '\U{205f}' || c == '\U{3000}'
  }

  // ---------------------------------------------------------------------------
  // Hexadecimal numerals

  predicate IsHexDigit(c: char) {
    '0' <= c <= '9' || 'a' <= c <= 'f' || 'A' <= c <= 'F'
  }

  predicate AllHexDigits(s: string) {
    forall i :: 0 <= i < |s| ==> IsHexDigit(s[i])
  }

  function HexDigitValue(c: char): (v: nat)
    requires IsHexDigit(c)
    ensures v < 16
  {
    if '0' <= c <= '9' then (c as int) - ('0' as int)
    else if 'a' <= c <= 'f' then (c as int) - ('a' as int) + 10
    else (c as int) - ('A' as int) + 10
  }

  /** The value of a string of hex digits, most significant digit first. */
  function HexValue(s: string): (n: nat)
    requires AllHexDigits(s)
    decreases |s|
  {
    if s == [] then 0 else HexValue(s[..|s| - 1]) * 16 + HexDigitValue(s[|s| - 1])
  }

  /**
    The non-ASCII decimal digits of Unicode 15.0 (general category Nd): the code
    point of the zero of each run of ten consecutive digits.
   */
  const OtherDecimalZeros: seq<int> :=
      [0x660, 0x6F0, 0x7C0, 0x966, 0x9E6, 0xA66, 0xAE6, 0xB66]
    + [0xBE6, 0xC66, 0xCE6, 0xD66, 0xDE6, 0xE50, 0xED0, 0xF20]
    + [0x1040, 0x1090, 0x17E0, 0x1810, 0x1946, 0x19D0, 0x1A80, 0x1A90]
    + [0x1B50, 0x1BB0, 0x1C40, 0x1C50, 0xA620, 0xA8D0, 0xA900, 0xA9D0]
    + [0xA9F0, 0xAA50, 0xABF0, 0xFF10, 0x104A0, 0x10D30, 0x11066, 0x110F0]
    + [0x11136, 0x111D0, 0x112F0, 0x11450, 0x114D0, 0x11650, 0x116C0, 0x11730]
    + [0x118E0, 0x11950, 0x11C50, 0x11D50, 0x11DA0, 0x11F50, 0x16A60, 0x16AC0]
    + [0x16B50, 0x1D7CE, 0x1D7D8, 0x1D7E2, 0x1D7EC, 0x1D7F6, 0x1E140, 0x1E2F0]
    + [0x1E4F0, 0x1E950, 0x1FBF0]

  /** The value of `c` as a digit of one of the runs starting at `zeros`, if it is one. */
  function RunDigitValue(c: char, zeros: seq<int>): (v: Option<nat>)
    ensures v.Some? ==> v.value < 10
  {
    if zeros == [] then None
    else if zeros[0] <= c as int < zeros[0] + 10 then Some(c as int - zeros[0])
    else RunDigitValue(c, zeros[1..])
  }

  /** A non-ASCII decimal digit: `int()` reads it as the ASCII digit of the same value. */
  predicate IsOtherDecimal(c: char) {
    c >= '\U{80}' && RunDigitValue(c, OtherDecimalZeros).Some?
  }

  /** A character that counts as a digit of a base-16 numeral for `int()`. */
  predicate IsNumeralDigit(c: char) {
    IsHexDigit(c) || IsOtherDecimal(c)
  }

  function NumeralDigitValue(c: char): (v: nat)
    requires IsNumeralDigit(c)
    ensures v < 16
    ensures IsHexDigit(c) ==> v == HexDigitValue(c)
  {
    if IsHexDigit(c) then HexDigitValue(c) else RunDigitValue(c, OtherDecimalZeros).value
  }

  /**
    Python's `int(s, 16)` on a string of at most two characters (the slices that
    `hex_to_rgb` takes): whitespace around the digits is ignored, a sign is allowed,
    a non-ASCII decimal digit counts as its ASCII digit, and at least one digit must
    remain; otherwise `int` raises (None). For strings this short, a `0x` prefix or
    an underscore is never part of a valid numeral.
   */
  function ParseHex(s: string): (r: Option<int>)
    requires |s| <= 2
    ensures s != [] && AllHexDigits(s) ==> r == Some(HexValue(s))
    ensures r.Some? ==> -15 <= r.value <= 255
    ensures s == [] ==> r == None
  {
    if |s| == 0 then None
    else if |s| == 1 then
      if IsNumeralDigit(s[0]) then
        assert IsHexDigit(s[0]) ==> HexValue(s) == HexDigitValue(s[0]) by {
          assert s[..0] == [];
        }
        Some(NumeralDigitValue(s[0]))
      else None
    else
      var a, b := s[0], s[1];
      if IsNumeralDigit(a) && IsNumeralDigit(b) then
        var v := 16 * NumeralDigitValue(a) + NumeralDigitValue(b);
        assert AllHexDigits(s) ==> v == HexValue(s) by {
          if AllHexDigits(s) {
            assert s[..1] == [a] && s[..1][..0] == [];
            assert s[|s| - 1] == b && s[..|s| - 1] == s[..1];
            assert HexValue(s[..1]) == HexDigitValue(a);
          }
        }
        Some(v)
      else if IsIntWhitespace(a) && IsNumeralDigit(b) then Some(NumeralDigitValue(b))
      else if IsNumeralDigit(a) && IsIntWhitespace(b) then Some(NumeralDigitValue(a))
      else if (a == '+' || a == '-') && IsNumeralDigit(b) then
        var v: int := NumeralDigitValue(b);
        Some(if a == '-' then -v else v)
      else None
  }

  /** A character that can never occur in a slice that `int(_, 16)` accepts. */
  predicate Foreign(c: char) {
    !IsNumeralDigit(c) && !IsIntWhitespace(c) && c != '+' && c != '-'
  }

  /** A slice holding a foreign character does not parse. */
  lemma ForeignSliceFails(s: string, k: nat)
    requires |s| <= 2 && k < |s| && Foreign(s[k])
    ensures ParseHex(s) == None
  {
  }

  /** The information separators U+001C to U+001F are whitespace to `str.isspace`, but `int()` does not strip them. */
  lemma SeparatorsNotStripped()
    ensures ParseHex("\U{1c}5") == None && ParseHex("5\U{1f}") == None
    ensures Foreign('\U{1c}') && Foreign('\U{1f}')
  {
  }

  /** Arabic-Indic digits are decimal digits, so `#٠٠٠٠٠٠` is black. */
  lemma OtherScriptDigitsAccepted()
    ensures HexToRgb("#\U{660}\U{660}\U{660}\U{660}\U{660}\U{660}") == Some(Rgb(0, 0, 0))
  {
    var z := "\U{660}\U{660}";
    assert "#\U{660}\U{660}\U{660}\U{660}\U{660}\U{660}" == "#" + (z + z + z);
    PairsRead(z, z, z);
    ArabicIndicZeroPair();
  }

  lemma ArabicIndicZeroPair()
    ensures ParseHex("\U{660}\U{660}") == Some(0)
  {
    assert OtherDecimalZeros[0] == 0x660;
    assert RunDigitValue('\U{660}', OtherDecimalZeros) == Some(0);
  }

  /**
    `hex_to_rgb(hex_color)`: strip every leading '#', then read the slices [0:2],
    [2:4] and [4:6] as base-16 integers. None stands for the ValueError that `int`
    raises on a bad slice.
   */
  function HexToRgb(hexColor: string): (rgb: Option<Rgb>)
    ensures |LStrip(hexColor, '#')| < 5 ==> rgb == None
  {
    var h := LStrip(hexColor, '#');
    assert |h| < 5 ==> Slice(h, 4, 6) == [];
    var r := ParseHex(Slice(h, 0, 2));
    var g := ParseHex(Slice(h, 2, 4));
    var b := ParseHex(Slice(h, 4, 6));
    if r.Some? && g.Some? && b.Some? then Some(Rgb(r.value, g.value, b.value)) else None
  }

  function Repeat(c: char, n: nat): (s: string)
    ensures |s| == n
  {
    if n == 0 then [] else [c] + Repeat(c, n - 1)
  }

  /** Any number of leading '#' characters is ignored, not just one. */
  lemma {:induction false} LeadingHashesIgnored(n: nat, s: string)
    ensures HexToRgb(Repeat('#', n) + s) == HexToRgb(s)
  {
    HashesStripped(n, s);
  }

  lemma {:induction false} HashesStripped(n: nat, s: string)
    ensures LStrip(Repeat('#', n) + s, '#') == LStrip(s, '#')
    decreases n
  {
    if n == 0 {
      assert Repeat('#', n) + s == s;
    } else {
      var rest := Repeat('#', n - 1) + s;
      assert Repeat('#', n) + s == ['#'] + rest;
      OneHashStripped(rest);
      HashesStripped(n - 1, s);
    }
  }

  lemma OneHashStripped(rest: string)
    ensures LStrip(['#'] + rest, '#') == LStrip(rest, '#')
  {
    assert (['#'] + rest)[1..] == rest;
  }

  /**
    A '#' followed by six hex digits gives the values of the three digit pairs, each
    in 0..255.
   */
  lemma SixHexDigits(digits: string)
    requires |digits| == 6 && AllHexDigits(digits)
    ensures HexToRgb("#" + digits)
      == Some(Rgb(HexValue(digits[0..2]), HexValue(digits[2..4]), HexValue(digits[4..6])))
    ensures var c := HexToRgb("#" + digits).value;
      0 <= c.r <= 255 && 0 <= c.g <= 255 && 0 <= c.b <= 255
  {
    assert digits[0] != '#';
    HashThenDigits(digits);
    assert Slice(digits, 0, 2) == digits[0..2];
    assert Slice(digits, 2, 4) == digits[2..4];
    assert Slice(digits, 4, 6) == digits[4..6];
    PairParses(digits[0..2]);
    PairParses(digits[2..4]);
    PairParses(digits[4..6]);
  }

  lemma HashThenDigits(digits: string)
    requires digits != [] && digits[0] != '#'
    ensures LStrip("#" + digits, '#') == digits
  {
    assert "#" + digits == ['#'] + digits;
    OneHashStripped(digits);
  }

  /** After one '#', the three pairs of a six-character string are the slices read. */
  lemma PairsRead(a: string, b: string, c: string)
    requires |a| == 2 && |b| == 2 && |c| == 2 && a[0] != '#'
    ensures HexToRgb("#" + (a + b + c))
      == if ParseHex(a).Some? && ParseHex(b).Some? && ParseHex(c).Some?
         then Some(Rgb(ParseHex(a).value, ParseHex(b).value, ParseHex(c).value))
         else None
  {
    var h := a + b + c;
    HashThenDigits(h);
    assert Slice(h, 0, 2) == a;
    assert Slice(h, 2, 4) == b;
    assert Slice(h, 4, 6) == c;
  }

  /** Two hex digits parse to their value, a byte. */
  lemma PairParses(pair: string)
    requires |pair| == 2 && AllHexDigits(pair)
    ensures ParseHex(pair) == Some(HexValue(pair)) && HexValue(pair) <= 255
  {
  }

  /** If one of the six characters read is not part of any base-16 numeral, parsing fails. */
  lemma ForeignCharacterFails(hexColor: string, k: nat)
    requires var h := LStrip(hexColor, '#'); k < 6 && k < |h| && Foreign(h[k])
    ensures HexToRgb(hexColor) == None
  {
    var h := LStrip(hexColor, '#');
    var lo := if k < 2 then 0 else if k < 4 then 2 else 4;
    var slice := Slice(h, lo, lo + 2);
    assert slice[k - lo] == h[k];
    ForeignSliceFails(slice, k - lo);
  }

  /** A sign and whitespace inside a slice are accepted, so components can be negative. */
  lemma SignedSlicesAccepted()
    ensures HexToRgb("#-1+2 3") == Some(Rgb(-1, 2, 3))
  {
    assert "#-1+2 3" == "#" + ("-1" + "+2" + " 3");
    PairsRead("-1", "+2", " 3");
    SignedSlicesParse();
  }

  lemma SignedSlicesParse()
    ensures ParseHex("-1") == Some(-1) && ParseHex("+2") == Some(2) && ParseHex(" 3") == Some(3)
  {
    assert HexDigitValue('1') == 1 && HexDigitValue('2') == 2 && HexDigitValue('3') == 3;
  }

  // ---------------------------------------------------------------------------
  // Formatting colours, the partner of hex_to_rgb

  function HexDigitChar(v: nat, upper: bool): (c: char)
    requires v < 16
    ensures IsHexDigit(c) && HexDigitValue(c) == v
  {
    if v < 10 then (('0' as int) + v) as char
    else if upper then (('A' as int) + v - 10) as char
    else (('a' as int) + v - 10) as char
  }

  /** `#rrggbb`, with lower-case or upper-case hex digits. */
  function FormatRgb(c: Rgb, upper: bool): (s: string)
    requires 0 <= c.r <= 255 && 0 <= c.g <= 255 && 0 <= c.b <= 255
    ensures |s| == 7 && s[0] == '#' && AllHexDigits(s[1..])
  {
    "#" + HexByte(c.r, upper) + HexByte(c.g, upper) + HexByte(c.b, upper)
  }

  function HexByte(v: nat, upper: bool): (s: string)
    requires v < 256
    ensures |s| == 2 && AllHexDigits(s) && HexValue(s) == v
  {
    var s := [HexDigitChar(v / 16, upper), HexDigitChar(v % 16, upper)];
    assert s[..1] == [s[0]] && s[..1][..0] == [];
    assert HexValue(s[..1]) == v / 16;
    s
  }

  /** Parsing a formatted colour gives back the colour. */
  lemma RoundTrip(c: Rgb, upper: bool)
    requires 0 <= c.r <= 255 && 0 <= c.g <= 255 && 0 <= c.b <= 255
    ensures HexToRgb(FormatRgb(c, upper)) == Some(c)
  {
    var digits := HexByte(c.r, upper) + HexByte(c.g, upper) + HexByte(c.b, upper);
    assert FormatRgb(c, upper) == "#" + digits;
    assert digits[0..2] == HexByte(c.r, upper);
    assert digits[2..4] == HexByte(c.g, upper);
    assert digits[4..6] == HexByte(c.b, upper);
    SixHexDigits(digits);
  }

  /** The top colour of the icon gradient. */
  lemma GradientTopColour()
    ensures HexToRgb(GradientTop) == Some(Rgb(0, 161, 154))
  {
    assert FormatRgb(Rgb(0, 161, 154), false) == GradientTop;
    RoundTrip(Rgb(0, 161, 154), false);
  }

  /** The bottom colour of the icon gradient. */
  lemma GradientBottomColour()
    ensures HexToRgb(GradientBottom) == Some(Rgb(0, 109, 104))
  {
    assert FormatRgb(Rgb(0, 109, 104), false) == GradientBottom;
    RoundTrip(Rgb(0, 109, 104), false);
  }

  // ---------------------------------------------------------------------------
  // Icon file names

  /** `name.replace('@', '_')`: every '@' becomes '_'. */
  function ReplaceAtSign(name: string): (r: string)
    ensures |r| == |name|
    ensures forall i :: 0 <= i < |name| ==> r[i] == (if name[i] == '@' then '_' else name[i])
  {
    seq(|name|, i requires 0 <= i < |name| => if name[i] == '@' then '_' else name[i])
  }

  /** `f"icon_{name.replace('@', '_')}.png"`. */
  function IconFileName(name: string): (f: string)
    ensures |f| == |name| + 9 && f[..5] == "icon_" && f[|f| - 4..] == ".png"
  {
    "icon_" + ReplaceAtSign(name) + ".png"
  }

  /** The file name keeps every character of the name but '@', which becomes '_'. */
  lemma IconFileNameShape(name: string)
    ensures var f := IconFileName(name);
      && |f| == |name| + 9
      && f[..5] == "icon_" && f[|f| - 4..] == ".png"
      && (forall i :: 0 <= i < |name| ==> f[5 + i] == (if name[i] == '@' then '_' else name[i]))
      && '@' !in f
  {
    var f := IconFileName(name);
    assert forall i :: 0 <= i < |name| ==> f[5 + i] == ReplaceAtSign(name)[i];
  }

  /** A name with one '@' between two parts: the '@' becomes '_' and the parts are kept. */
  lemma IconFileNameOfScale(base: string, scale: string)
    requires '@' !in base && '@' !in scale
    ensures IconFileName(base + "@" + scale) == "icon_" + base + "_" + scale + ".png"
  {
    var name := base + "@" + scale;
    var replaced := base + "_" + scale;
    forall i | 0 <= i < |name|
      ensures ReplaceAtSign(name)[i] == replaced[i]
    {
      if i < |base| {
        assert name[i] == base[i] && replaced[i] == base[i];
      } else if i == |base| {
        assert name[i] == '@' && replaced[i] == '_';
      } else {
        assert name[i] == scale[i - |base| - 1] && replaced[i] == scale[i - |base| - 1];
      }
    }
    assert ReplaceAtSign(name) == replaced;
  }

  // ---------------------------------------------------------------------------
  // generate_all_icons

  /** A value of the `sizes` dict: one name, or a list of names. */
  datatype IconNames = One(name: string) | Several(names: seq<string>)

  /** `if isinstance(names, str): names = [names]`. */
  function NameList(n: IconNames): (names: seq<string>)
    ensures n.One? ==> names == [n.name]
    ensures n.Several? ==> names == n.names
  {
    match n
    case One(name) => [name]
    case Several(names) => names
  }

  /** The `sizes` dict of the script, in its insertion (and iteration) order. */
  const Sizes: seq<(string, IconNames)> := [
    ("40", One("20x20@2x")),
    ("60", One("20x20@3x")),
    ("58", One("29x29@2x")),
    ("87", One("29x29@3x")),
    ("80", One("40x40@2x")),
    ("120", Several(["40x40@3x", "60x60@2x"])),
    ("180", One("60x60@3x")),
    ("1024", One("1024x1024"))
  ]

  predicate DecimalKeys(entries: seq<(string, IconNames)>) {
    forall i :: 0 <= i < |entries| ==> entries[i].0 != [] && AllDigits(entries[i].0)
  }

  /**
    The (size, file name) pairs saved for one entry: none if `create_icon(size)`
    raises; otherwise one per name until the first `icon.save` that raises, after
    which the `try` block is left and the remaining names of the entry are skipped.
   */
  function SavedForEntry(size: int, names: seq<string>, saveFails: set<string>): (saved: seq<(int, string)>)
    ensures |saved| <= |names|
    ensures forall k :: 0 <= k < |saved| ==> saved[k] == (size, IconFileName(names[k]))
    ensures forall k :: 0 <= k < |saved| ==> saved[k].1 !in saveFails
  {
    if names == [] then []
    else
      var f := IconFileName(names[0]);
      if f in saveFails then [] else [(size, f)] + SavedForEntry(size, names[1..], saveFails)
  }

  /**
    What one entry of the `sizes` dict contributes: nothing when its icon cannot be
    created, otherwise a prefix of its names, each saved under its file name.
   */
  function EntryOutput(entry: (string, IconNames), iconFails: set<int>, saveFails: set<string>): (out: seq<(int, string)>)
    requires AllDigits(entry.0)
    ensures DecimalValue(entry.0) in iconFails ==> out == []
    ensures |out| <= |NameList(entry.1)|
    ensures forall k :: 0 <= k < |out| ==> out[k] == (DecimalValue(entry.0), IconFileName(NameList(entry.1)[k]))
    ensures forall p :: p in out ==> p.0 !in iconFails && p.1 !in saveFails
  {
    var size := DecimalValue(entry.0);
    if size in iconFails then [] else SavedForEntry(size, NameList(entry.1), saveFails)
  }

  /**
    Everything `generate_all_icons` saves, in order, when `create_icon` raises for the
    sizes in `iconFails` and `icon.save` raises for the file names in `saveFails`.
   */
  function Output(entries: seq<(string, IconNames)>, iconFails: set<int>, saveFails: set<string>): (out: seq<(int, string)>)
    requires DecimalKeys(entries)
    ensures |out| <= NameCount(entries)
    ensures forall p :: p in out ==> p.0 !in iconFails && p.1 !in saveFails
    decreases |entries|
  {
    if entries == [] then []
    else Output(entries[..|entries| - 1], iconFails, saveFails) + EntryOutput(entries[|entries| - 1], iconFails, saveFails)
  }

  /** The loop of `generate_all_icons`, returning what it saves. */
  method GenerateAllIcons(entries: seq<(string, IconNames)>, iconFails: set<int>, saveFails: set<string>)
    returns (saved: seq<(int, string)>)
    requires DecimalKeys(entries)
    ensures saved == Output(entries, iconFails, saveFails)
  {
    saved := [];
    var i := 0;
    while i < |entries|
      invariant 0 <= i <= |entries|
      invariant saved == Output(entries[..i], iconFails, saveFails)
    {
      var size := DecimalValue(entries[i].0);
      var names := NameList(entries[i].1);
      if size !in iconFails {
        var entrySaved := SaveIcons(size, names, saveFails);
        saved := saved + entrySaved;
      }
      assert entries[..i + 1][..i] == entries[..i];
      i := i + 1;
    }
    assert entries[..i] == entries;
  }

  /**
    The `try` block of one entry once `create_icon(size)` has succeeded: save one file
    per name, and leave the block at the first save that raises.
   */
  method SaveIcons(size: int, names: seq<string>, saveFails: set<string>) returns (saved: seq<(int, string)>)
    ensures saved == SavedForEntry(size, names, saveFails)
  {
    saved := [];
    var j := 0;
    while j < |names|
      invariant 0 <= j <= |names|
      invariant forall k :: 0 <= k < j ==> IconFileName(names[k]) !in saveFails
      invariant saved == SavedForEntry(size, names[..j], saveFails)
    {
      var filename := IconFileName(names[j]);
      if filename in saveFails {
        SavedStopsAt(size, names, j, saveFails);
        return;
      }
      SavedGrowsAt(size, names, j, saveFails);
      saved := saved + [(size, filename)];
      j := j + 1;
    }
    assert names[..j] == names;
  }

  /** A failing save ends the entry: nothing after it is saved. */
  lemma SavedStopsAt(size: int, names: seq<string>, j: nat, saveFails: set<string>)
    requires j < |names| && IconFileName(names[j]) in saveFails
    requires forall k :: 0 <= k < j ==> IconFileName(names[k]) !in saveFails
    ensures SavedForEntry(size, names, saveFails) == SavedForEntry(size, names[..j], saveFails)
  {
    assert names == names[..j] + names[j..];
    SavedAppend(size, names[..j], names[j..], saveFails);
    assert names[j..][0] == names[j];
  }

  /** A successful save adds its file to the end. */
  lemma SavedGrowsAt(size: int, names: seq<string>, j: nat, saveFails: set<string>)
    requires j < |names| && IconFileName(names[j]) !in saveFails
    requires forall k :: 0 <= k < j ==> IconFileName(names[k]) !in saveFails
    ensures SavedForEntry(size, names[..j + 1], saveFails) == SavedForEntry(size, names[..j], saveFails) + [(size, IconFileName(names[j]))]
  {
    assert names[..j + 1] == names[..j] + [names[j]];
    SavedAppend(size, names[..j], [names[j]], saveFails);
    assert [names[j]][1..] == [];
  }

  /** Before the first failing save, the files of a concatenation are those of its parts. */
  lemma {:induction false} SavedAppend(size: int, a: seq<string>, b: seq<string>, saveFails: set<string>)
    requires forall k :: 0 <= k < |a| ==> IconFileName(a[k]) !in saveFails
    ensures SavedForEntry(size, a + b, saveFails) == SavedForEntry(size, a, saveFails) + SavedForEntry(size, b, saveFails)
    decreases |a|
  {
    if a == [] {
      assert a + b == b;
    } else {
      assert (a + b)[0] == a[0];
      assert (a + b)[1..] == a[1..] + b;
      SavedAppend(size, a[1..], b, saveFails);
    }
  }

  /** With no failures, every name of an entry yields exactly one file. */
  lemma {:induction false} NoFailuresSaveEveryName(size: int, names: seq<string>)
    ensures |SavedForEntry(size, names, {})| == |names|
  {
    if names != [] {
      NoFailuresSaveEveryName(size, names[1..]);
    }
  }

  /** No saved file name contains '@'. */
  lemma {:induction false} NoAtSignInOutput(entries: seq<(string, IconNames)>, iconFails: set<int>, saveFails: set<string>)
    requires DecimalKeys(entries)
    ensures forall k :: 0 <= k < |Output(entries, iconFails, saveFails)| ==> '@' !in Output(entries, iconFails, saveFails)[k].1
    decreases |entries|
  {
    if entries != [] {
      NoAtSignInOutput(entries[..|entries| - 1], iconFails, saveFails);
      forall name: string
        ensures '@' !in IconFileName(name)
      {
        IconFileNameShape(name);
      }
    }
  }

  lemma {:induction false} OutputAppend(entries: seq<(string, IconNames)>, entry: (string, IconNames), iconFails: set<int>, saveFails: set<string>)
    requires DecimalKeys(entries) && entry.0 != [] && AllDigits(entry.0)
    ensures DecimalKeys(entries + [entry])
    ensures Output(entries + [entry], iconFails, saveFails)
      == Output(entries, iconFails, saveFails) + EntryOutput(entry, iconFails, saveFails)
  {
    assert (entries + [entry])[..|entries|] == entries;
  }

  /** The number of names in the entries, after normalisation to lists. */
  function NameCount(entries: seq<(string, IconNames)>): nat
    decreases |entries|
  {
    if entries == [] then 0 else NameCount(entries[..|entries| - 1]) + |NameList(entries[|entries| - 1].1)|
  }

  /** With no failures, the script saves one file per name of every entry. */
  lemma {:induction false} OutputLength(entries: seq<(string, IconNames)>)
    requires DecimalKeys(entries)
    ensures |Output(entries, {}, {})| == NameCount(entries)
    decreases |entries|
  {
    if entries != [] {
      var last := entries[|entries| - 1];
      OutputLength(entries[..|entries| - 1]);
      NoFailuresSaveEveryName(DecimalValue(last.0), NameList(last.1));
    }
  }

  lemma ScriptTableKeys()
    ensures DecimalKeys(Sizes)
  {
  }

  /** The script's table: the eight keys yield nine files in all. */
  lemma ScriptTableOutput()
    ensures DecimalKeys(Sizes)
    ensures |Output(Sizes, {}, {})| == 9
  {
    ScriptTableKeys();
    OutputLength(Sizes);
    ScriptTableNameCount();
  }

  /** Key "120" names two icons, so it yields two files. */
  lemma EntryOf120()
    ensures EntryOutput(Sizes[5], {}, {}) == [(120, IconFileName("40x40@3x")), (120, IconFileName("60x60@2x"))]
  {
    var names := ["40x40@3x", "60x60@2x"];
    assert Sizes[5] == ("120", Several(names));
    KeyOf120();
    assert names == ["40x40@3x"] + (["60x60@2x"] + []);
    SavedFirst(120, "60x60@2x", []);
    SavedFirst(120, "40x40@3x", ["60x60@2x"]);
    assert SavedForEntry(120, [], {}) == [];
    assert EntryOutput(Sizes[5], {}, {}) == SavedForEntry(120, names, {});
  }

  /** With no failures, the first name of an entry yields the first file. */
  lemma SavedFirst(size: int, name: string, rest: seq<string>)
    ensures SavedForEntry(size, [name] + rest, {}) == [(size, IconFileName(name))] + SavedForEntry(size, rest, {})
  {
    assert ([name] + rest)[0] == name && ([name] + rest)[1..] == rest;
  }

  lemma KeyOf120()
    ensures DecimalValue("120") == 120
  {
    assert "120"[..2] == "12";
    assert "12"[..1] == "1";
  }

  lemma ScriptTableNameCount()
    ensures NameCount(Sizes) == 9
  {
    assert Sizes[..8] == Sizes;
    assert Sizes[..8][..7] == Sizes[..7];
    assert Sizes[..7][..6] == Sizes[..6];
    assert Sizes[..6][..5] == Sizes[..5];
    assert Sizes[..5][..4] == Sizes[..4];
    assert Sizes[..4][..3] == Sizes[..3];
    assert Sizes[..3][..2] == Sizes[..2];
    assert Sizes[..2][..1] == Sizes[..1];
    assert Sizes[..1][..0] == Sizes[..0];
    assert NameCount(Sizes[..0]) == 0;
    assert NameCount(Sizes[..1]) == NameCount(Sizes[..0]) + |NameList(Sizes[0].1)|;
    assert NameCount(Sizes[..2]) == NameCount(Sizes[..1]) + |NameList(Sizes[1].1)|;
    assert NameCount(Sizes[..3]) == NameCount(Sizes[..2]) + |NameList(Sizes[2].1)|;
    assert NameCount(Sizes[..4]) == NameCount(Sizes[..3]) + |NameList(Sizes[3].1)|;
    assert NameCount(Sizes[..5]) == NameCount(Sizes[..4]) + |NameList(Sizes[4].1)|;
    assert NameCount(Sizes[..6]) == NameCount(Sizes[..5]) + |NameList(Sizes[5].1)|;
    assert NameCount(Sizes[..7]) == NameCount(Sizes[..6]) + |NameList(Sizes[6].1)|;
    assert NameCount(Sizes[..8]) == NameCount(Sizes[..7]) + |NameList(Sizes[7].1)|;

  }
}
