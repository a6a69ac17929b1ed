/** `ColorUtil`: legacy colour codes, the nearest legacy colour of an RGB
    value, the `&x` to MiniMessage translation and the tag downsampler.
    MiniMessage parsing itself is a parameter (`mini`), `None` where it throws. */
module Colors {
  import opened Wrappers
  import opened Strings

  // ---------------------------------------------------------------------
  // Colours
  // ---------------------------------------------------------------------

  datatype Rgb = Rgb(red: int, green: int, blue: int)

  predicate IsRgb(c: Rgb) {
    0 <= c.red <= 255 && 0 <= c.green <= 255 && 0 <= c.blue <= 255
  }

  /** `getColorDistance`: the squared Euclidean distance in RGB space. */
  function ColorDistance(c1: Rgb, c2: Rgb): (d: int)
    ensures d >= 0
    ensures d == 0 <==> c1 == c2
    ensures IsRgb(c1) && IsRgb(c2) ==> d <= 3 * 255 * 255
  {
    var dr, dg, db := c1.red - c2.red, c1.green - c2.green, c1.blue - c2.blue;
    SquareBounds(dr);
    SquareBounds(dg);
    SquareBounds(db);
    dr * dr + dg * dg + db * db
  }

  lemma SquareBounds(x: int)
    ensures x * x >= 0
    ensures x * x == 0 <==> x == 0
    ensures -255 <= x <= 255 ==> x * x <= 255 * 255
  {
    if x < 0 {
      assert x * x == (-x) * (-x);
      SquareMonotone(-x);
    } else {
      SquareMonotone(x);
    }
  }

  lemma SquareMonotone(x: nat)
    ensures x * x >= x
    ensures x <= 255 ==> x * x <= 255 * 255
  {
    if x > 0 {
      MulMonotone(x, 1, x);
    }
    if x <= 255 {
      MulMonotone(x, x, 255);
      MulMonotone(255, x, 255);
    }
  }

  /** Multiplying by a non-negative factor keeps an inequality. */
  lemma MulMonotone(a: nat, b: int, c: int)
    requires b <= c
    ensures a * b <= a * c
  {
    assert a * c - a * b == a * (c - b);
  }

  lemma ColorDistanceSymmetric(c1: Rgb, c2: Rgb)
    ensures ColorDistance(c1, c2) == ColorDistance(c2, c1)
  {
    var dr, dg, db := c1.red - c2.red, c1.green - c2.green, c1.blue - c2.blue;
    assert (-dr) * (-dr) == dr * dr;
    assert (-dg) * (-dg) == dg * dg;
    assert (-db) * (-db) == db * db;
  }

  /** `org.bukkit.ChatColor`, in declaration order. */
  datatype ChatColor =
    | BLACK | DARK_BLUE | DARK_GREEN | DARK_AQUA | DARK_RED | DARK_PURPLE | GOLD | GRAY
    | DARK_GRAY | BLUE | GREEN | AQUA | RED | LIGHT_PURPLE | YELLOW | WHITE
    | MAGIC | BOLD | STRIKETHROUGH | UNDERLINE | ITALIC | RESET

  /** `ChatColor.values()`. */
  const Values: seq<ChatColor> := [
    BLACK, DARK_BLUE, DARK_GREEN, DARK_AQUA, DARK_RED, DARK_PURPLE, GOLD, GRAY,
    DARK_GRAY, BLUE, GREEN, AQUA, RED, LIGHT_PURPLE, YELLOW, WHITE,
    MAGIC, BOLD, STRIKETHROUGH, UNDERLINE, ITALIC, RESET]

  predicate IsFormat(c: ChatColor) {
    c == MAGIC || c == BOLD || c == STRIKETHROUGH || c == UNDERLINE || c == ITALIC
  }

  /** The character after `§` in `ChatColor.toString()`. */
  function Code(c: ChatColor): char {
    match c
    case BLACK => '0' case DARK_BLUE => '1' case DARK_GREEN => '2' case DARK_AQUA => '3'
    case DARK_RED => '4' case DARK_PURPLE => '5' case GOLD => '6' case GRAY => '7'
    case DARK_GRAY => '8' case BLUE => '9' case GREEN => 'a' case AQUA => 'b'
    case RED => 'c' case LIGHT_PURPLE => 'd' case YELLOW => 'e' case WHITE => 'f'
    case MAGIC => 'k' case BOLD => 'l' case STRIKETHROUGH => 'm' case UNDERLINE => 'n'
    case ITALIC => 'o' case RESET => 'r'
  }

  /** `getLegacyColor`: the RGB value of each of the sixteen colours, `null`
      for formats and `RESET`. */
  function LegacyColor(c: ChatColor): Option<Rgb> {
    match c
    case BLACK => Some(Rgb(0, 0, 0))
    case DARK_BLUE => Some(Rgb(0, 0, 170))
    case DARK_GREEN => Some(Rgb(0, 170, 0))
    case DARK_AQUA => Some(Rgb(0, 170, 170))
    case DARK_RED => Some(Rgb(170, 0, 0))
    case DARK_PURPLE => Some(Rgb(170, 0, 170))
    case GOLD => Some(Rgb(255, 170, 0))
    case GRAY => Some(Rgb(170, 170, 170))
    case DARK_GRAY => Some(Rgb(85, 85, 85))
    case BLUE => Some(Rgb(85, 85, 255))
    case GREEN => Some(Rgb(85, 255, 85))
    case AQUA => Some(Rgb(85, 255, 255))
    case RED => Some(Rgb(255, 85, 85))
    case LIGHT_PURPLE => Some(Rgb(255, 85, 255))
    case YELLOW => Some(Rgb(255, 255, 85))
    case WHITE => Some(Rgb(255, 255, 255))
    case _ => None
  }

  /** The sixteen colours that have an RGB value are the first sixteen values. */
  lemma PaletteIsPrefix()
    ensures forall i :: 0 <= i < 16 ==> !IsFormat(Values[i]) && LegacyColor(Values[i]).Some?
    ensures forall i :: 16 <= i < |Values| ==> IsFormat(Values[i]) || LegacyColor(Values[i]).None?
  {
  }

  function PaletteRgb(i: nat): Rgb
    requires i < 16
  {
    PaletteIsPrefix();
    LegacyColor(Values[i]).value
  }

  /** Index `m` is the earliest of the first `n` palette colours at minimal
      distance from `target`. */
  predicate IsFirstMin(target: Rgb, m: nat, n: nat)
    requires n <= 16
  {
    m < n
    && (forall j :: 0 <= j < n ==> ColorDistance(target, PaletteRgb(m)) <= ColorDistance(target, PaletteRgb(j)))
    && (forall j :: 0 <= j < m ==> ColorDistance(target, PaletteRgb(j)) > ColorDistance(target, PaletteRgb(m)))
  }

  /** Reference argmin over a prefix of the palette. */
  function FirstMin(target: Rgb, n: nat): (m: nat)
    requires 0 < n <= 16
    ensures IsFirstMin(target, m, n)
  {
    if n == 1 then 0
    else
      var m := FirstMin(target, n - 1);
      var dm, dl := ColorDistance(target, PaletteRgb(m)), ColorDistance(target, PaletteRgb(n - 1));
      if dl < dm then
        assert forall j :: 0 <= j < n - 1 ==> dm <= ColorDistance(target, PaletteRgb(j));
        n - 1
      else
        m
  }

  lemma FirstMinUnique(target: Rgb, m1: nat, m2: nat, n: nat)
    requires n <= 16 && IsFirstMin(target, m1, n) && IsFirstMin(target, m2, n)
    ensures m1 == m2
  {
    var d1, d2 := ColorDistance(target, PaletteRgb(m1)), ColorDistance(target, PaletteRgb(m2));
    assert d1 <= d2 && d2 <= d1;
  }

  /** The colour `getClosestColor` returns. */
  function ClosestColor(target: Rgb): ChatColor {
    Values[FirstMin(target, 16)]
  }

  /** `getClosestColor`: scans all values, skips formats and colours without
      RGB, keeps the first strictly nearer one. */
  method GetClosestColor(target: Rgb) returns (closest: ChatColor)
    requires IsRgb(target)
    ensures closest == ClosestColor(target)
  {
    PaletteIsPrefix();
    closest := WHITE;
    var minDistance := INT_MAX;
    var i := 0;
    while i < |Values|
      invariant 0 <= i <= |Values|
      invariant i == 0 ==> minDistance == INT_MAX
      invariant 0 < i ==> var n := if i < 16 then i else 16;
        closest == Values[FirstMin(target, n)] && minDistance == ColorDistance(target, PaletteRgb(FirstMin(target, n)))
    {
      var c := Values[i];
      if !IsFormat(c) {
        var legacy := LegacyColor(c);
        if legacy.Some? {
          var distance := ColorDistance(target, legacy.value);
          assert IsRgb(legacy.value);
          if distance < minDistance {
            minDistance := distance;
            closest := c;
          }
        }
      }
      i := i + 1;
    }
  }

  /** The position of an RGB value in the palette. */
  function PaletteIndex(c: Rgb): int {
    if c == Rgb(0, 0, 0) then 0 else if c == Rgb(0, 0, 170) then 1
    else if c == Rgb(0, 170, 0) then 2 else if c == Rgb(0, 170, 170) then 3
    else if c == Rgb(170, 0, 0) then 4 else if c == Rgb(170, 0, 170) then 5
    else if c == Rgb(255, 170, 0) then 6 else if c == Rgb(170, 170, 170) then 7
    else if c == Rgb(85, 85, 85) then 8 else if c == Rgb(85, 85, 255) then 9
    else if c == Rgb(85, 255, 85) then 10 else if c == Rgb(85, 255, 255) then 11
    else if c == Rgb(255, 85, 85) then 12 else if c == Rgb(255, 85, 255) then 13
    else if c == Rgb(255, 255, 85) then 14 else if c == Rgb(255, 255, 255) then 15
    else -1
  }

  /** No two palette entries share an RGB value. */
  lemma PaletteDistinct(i: nat)
    requires i < 16
    ensures PaletteIndex(PaletteRgb(i)) == i
  {
  }

  /** A colour of the table maps back to itself: its distance to every other
      table colour is positive. */
  lemma ClosestOfTableColor(k: nat)
    requires k < 16
    ensures ClosestColor(PaletteRgb(k)) == Values[k]
  {
    var t := PaletteRgb(k);
    var m := FirstMin(t, 16);
    assert ColorDistance(t, PaletteRgb(k)) == 0;
    assert ColorDistance(t, PaletteRgb(m)) == 0;
    PaletteDistinct(k);
    PaletteDistinct(m);
  }

  // ---------------------------------------------------------------------
  // convertHexToLegacy: every &#RRGGBB becomes the nearest §x code
  // ---------------------------------------------------------------------

  predicate IsHexDigit(c: char) {
    '0' <= c <= '9' || 'a' <= c <= 'f' || 'A' <= c <= 'F'
  }

  function HexDigitValue(c: char): (v: nat)
    requires IsHexDigit(c)
    ensures v < 16
  {
    if '0' <= c <= '9' then c as int - '0' as int
    else if 'a' <= c <= 'f' then c as int - 'a' as int + 10
    else c as int - 'A' as int + 10
  }

  /** `&#` followed by six hex digits (HEX_PATTERN) at the start of `s`. */
  predicate HexTokenAt(s: string) {
    |s| >= 8 && s[0] == '&' && s[1] == '#' && forall k :: 2 <= k < 8 ==> IsHexDigit(s[k])
  }

  /** `Color.decode("#" + hex)`. */
  function DecodeHex(h: string): (c: Rgb)
    requires |h| == 6 && forall k :: 0 <= k < 6 ==> IsHexDigit(h[k])
    ensures IsRgb(c)
  {
    Rgb(HexDigitValue(h[0]) * 16 + HexDigitValue(h[1]),
        HexDigitValue(h[2]) * 16 + HexDigitValue(h[3]),
        HexDigitValue(h[4]) * 16 + HexDigitValue(h[5]))
  }

  function LegacyString(c: ChatColor): string { ['§', Code(c)] }

  /** The text with every match of HEX_PATTERN, found left to right without
      overlap, replaced by the nearest legacy code. */
  function HexToLegacy(s: string): string
    decreases |s|
  {
    if s == [] then []
    else if HexTokenAt(s) then LegacyString(ClosestColor(DecodeHex(s[2..8]))) + HexToLegacy(s[8..])
    else [s[0]] + HexToLegacy(s[1..])
  }

  /** One step of the scan at position `i`: the replacement of the token
      there, or the character there, and the position after it. */
  method HexPiece(text: string, i: nat) returns (piece: string, next: nat)
    requires i < |text|
    ensures i < next <= |text|
    ensures HexToLegacy(text[i..]) == piece + HexToLegacy(text[next..])
  {
    var rest := text[i..];
    if HexTokenAt(rest) {
      var closest := GetClosestColor(DecodeHex(rest[2..8]));
      assert rest[8..] == text[i + 8..];
      piece, next := LegacyString(closest), i + 8;
    } else {
      assert rest[1..] == text[i + 1..];
      piece, next := [text[i]], i + 1;
    }
  }

  /** `convertHexToLegacy`: find / appendReplacement / appendTail. */
  method ConvertHexToLegacy(text: string) returns (result: string)
    ensures result == HexToLegacy(text)
  {
    var buffer := "";
    var i := 0;
    while i < |text|
      invariant 0 <= i <= |text|
      invariant buffer + HexToLegacy(text[i..]) == HexToLegacy(text)
    {
      var piece, next := HexPiece(text, i);
      assert buffer + (piece + HexToLegacy(text[next..])) == (buffer + piece) + HexToLegacy(text[next..]);
      buffer := buffer + piece;
      i := next;
    }
    assert text[i..] == [];
    result := buffer;
  }

  /** Text without any `&#RRGGBB` is left as it is. */
  lemma {:induction false} HexToLegacyWithoutTokens(s: string)
    requires forall k :: 0 <= k < |s| ==> !HexTokenAt(s[k..])
    ensures HexToLegacy(s) == s
    decreases |s|
  {
    if s != [] {
      assert s[0..] == s;
      forall k | 0 <= k < |s[1..]| ensures !HexTokenAt(s[1..][k..]) {
        assert s[1..][k..] == s[k + 1..];
      }
      HexToLegacyWithoutTokens(s[1..]);
    }
  }

  /** `convertToLegacy`: MiniMessage's legacy serialisation, or the hex
      conversion when MiniMessage throws. */
  function ConvertToLegacy(text: string, mini: string -> Option<string>): (r: string)
    ensures mini(text).None? ==> r == HexToLegacy(text)
  {
    match mini(text)
    case Some(legacy) => legacy
    case None => HexToLegacy(text)
  }

  /** `downsampleToLegacy`: the null guard in front of `convertToLegacy`. */
  function DownsampleToLegacy(text: Option<string>, mini: string -> Option<string>): (r: string)
    ensures text.None? ==> r == ""
    ensures text.Some? ==> r == ConvertToLegacy(text.value, mini)
  {
    match text
    case None => ""
    case Some(t) => ConvertToLegacy(t, mini)
  }

  // ---------------------------------------------------------------------
  // translateLegacyToMiniMessage
  // ---------------------------------------------------------------------

  /** The replacements of `translateLegacyToMiniMessage`, in the order the
      calls are chained: the code character after `&` and its tag. */
  const LegacyTags: seq<(char, string)> := [
    ('0', "<black>"), ('1', "<dark_blue>"), ('2', "<dark_green>"), ('3', "<dark_aqua>"),
    ('4', "<dark_red>"), ('5', "<dark_purple>"), ('6', "<gold>"), ('7', "<gray>"),
    ('8', "<dark_gray>"), ('9', "<blue>"), ('a', "<green>"), ('b', "<aqua>"),
    ('c', "<red>"), ('d', "<light_purple>"), ('e', "<yellow>"), ('f', "<white>"),
    ('k', "<obfuscated>"), ('l', "<bold>"), ('m', "<strikethrough>"), ('n', "<underlined>"),
    ('o', "<italic>"), ('r', "<reset>")]

  /** The chain `text.replace("&0", "<black>").replace("&1", …)…`, applied to
      the first `n` pairs. */
  function TranslateChain(s: string, n: nat): string
    requires n <= |LegacyTags|
  {
    if n == 0 then s
    else Replace(TranslateChain(s, n - 1), ['&', LegacyTags[n - 1].0], LegacyTags[n - 1].1)
  }

  /** `translateLegacyToMiniMessage`: the 22 chained replaces amount to a
      single left-to-right pass that rewrites each `&` code. */
  function TranslateLegacyToMiniMessage(s: string): (r: string)
    ensures r == OnePass(s, |LegacyTags|)
  {
    ChainIsOnePass(s, |LegacyTags|);
    TranslateChain(s, |LegacyTags|)
  }

  /** The index of a code among the first `n` pairs, if any. */
  function CodeIndex(c: char, n: nat): (r: Option<nat>)
    requires n <= |LegacyTags|
    ensures r.Some? ==> r.value < n && LegacyTags[r.value].0 == c
    ensures r.None? ==> forall k :: 0 <= k < n ==> LegacyTags[k].0 != c
  {
    if n == 0 then None
    else if LegacyTags[n - 1].0 == c then Some(n - 1)
    else CodeIndex(c, n - 1)
  }

  /** Reference translation in one left-to-right pass, knowing the first
      `n` codes: `&` and a known code become its tag, everything else is kept. */
  function OnePass(s: string, n: nat): string
    requires n <= |LegacyTags|
    decreases |s|
  {
    if |s| >= 2 && s[0] == '&' && CodeIndex(s[1], n).Some? then
      LegacyTags[CodeIndex(s[1], n).value].1 + OnePass(s[2..], n)
    else if s == [] then []
    else [s[0]] + OnePass(s[1..], n)
  }

  /** The codes are listed in increasing character order. */
  lemma LegacyCodesIncrease()
    ensures forall k :: 0 <= k < |LegacyTags| - 1 ==> LegacyTags[k].0 < LegacyTags[k + 1].0
  {
  }

  lemma {:induction false} LegacyCodesIncreaseFrom(i: nat, j: nat)
    requires i < j < |LegacyTags|
    ensures LegacyTags[i].0 < LegacyTags[j].0
    decreases j - i
  {
    LegacyCodesIncrease();
    if j > i + 1 {
      LegacyCodesIncreaseFrom(i + 1, j);
    }
  }

  /** The codes are digits and lower-case letters. */
  lemma LegacyCodesLowerCase()
    ensures forall k :: 0 <= k < |LegacyTags| ==> '0' <= LegacyTags[k].0 <= '9' || 'a' <= LegacyTags[k].0 <= 'z'
  {
  }

  /** `CodeIndex` finds every code at its own position. */
  lemma {:induction false} CodeIndexFinds(k: nat, n: nat)
    requires k < n <= |LegacyTags|
    ensures CodeIndex(LegacyTags[k].0, n) == Some(k)
    decreases n
  {
    if n - 1 != k {
      LegacyCodesIncreaseFrom(k, n - 1);
      CodeIndexFinds(k, n - 1);
    }
  }

  /** No code is `&` or `<`. */
  lemma LegacyCodesPlain()
    ensures forall k :: 0 <= k < |LegacyTags| ==> LegacyTags[k].0 != '&' && LegacyTags[k].0 != '<'
  {
  }

  /** Every tag starts with `<` and has no `&`. */
  lemma LegacyTagShape()
    ensures forall k :: 0 <= k < |LegacyTags| ==> |LegacyTags[k].1| > 0 && LegacyTags[k].1[0] == '<'
    ensures forall k :: 0 <= k < |LegacyTags| ==> forall j :: 0 <= j < |LegacyTags[k].1| ==> LegacyTags[k].1[j] != '&'
  {
  }

  lemma LegacyTagFacts()
    ensures forall k :: 0 <= k < |LegacyTags| ==> LegacyTags[k].0 != '&' && LegacyTags[k].0 != '<'
    ensures forall k :: 0 <= k < |LegacyTags| ==> |LegacyTags[k].1| > 0 && LegacyTags[k].1[0] == '<'
    ensures forall k :: 0 <= k < |LegacyTags| ==> forall j :: 0 <= j < |LegacyTags[k].1| ==> LegacyTags[k].1[j] != '&'
    ensures forall i, j :: 0 <= i < j < |LegacyTags| ==> LegacyTags[i].0 != LegacyTags[j].0
  {
    LegacyCodesPlain();
    LegacyTagShape();
    forall i, j | 0 <= i < j < |LegacyTags| ensures LegacyTags[i].0 != LegacyTags[j].0 {
      LegacyCodesIncreaseFrom(i, j);
    }
  }

  /** The first character of a one-pass output is the first character of the
      text or the `<` of a tag. */
  lemma OnePassHead(s: string, n: nat)
    requires n <= |LegacyTags| && s != []
    ensures OnePass(s, n) != [] && (OnePass(s, n)[0] == s[0] || OnePass(s, n)[0] == '<')
  {
    LegacyTagFacts();
  }

  /** One more `.replace` in the chain is one more known code in the pass. */
  lemma {:induction false} ReplaceExtendsOnePass(s: string, n: nat)
    requires n < |LegacyTags|
    ensures Replace(OnePass(s, n), ['&', LegacyTags[n].0], LegacyTags[n].1) == OnePass(s, n + 1)
    decreases |s|
  {
    if s == [] {
    } else if |s| >= 2 && s[0] == '&' && CodeIndex(s[1], n).Some? {
      ReplaceExtendsOnePass(s[2..], n);
      ExtendAtKnownCode(s, n);
    } else if |s| >= 2 && s[0] == '&' && s[1] == LegacyTags[n].0 {
      ReplaceExtendsOnePass(s[2..], n);
      ExtendAtNewCode(s, n);
    } else {
      ReplaceExtendsOnePass(s[1..], n);
      ExtendAtOther(s, n);
    }
  }

  /** Step of `ReplaceExtendsOnePass` at an already known code: its tag has
      no `&`, so the new replace passes over it. */
  lemma ExtendAtKnownCode(s: string, n: nat)
    requires n < |LegacyTags| && |s| >= 2 && s[0] == '&' && CodeIndex(s[1], n).Some?
    requires Replace(OnePass(s[2..], n), ['&', LegacyTags[n].0], LegacyTags[n].1) == OnePass(s[2..], n + 1)
    ensures Replace(OnePass(s, n), ['&', LegacyTags[n].0], LegacyTags[n].1) == OnePass(s, n + 1)
  {
    LegacyTagFacts();
    var p := ['&', LegacyTags[n].0];
    var t := LegacyTags[CodeIndex(s[1], n).value].1;
    assert CodeIndex(s[1], n + 1) == CodeIndex(s[1], n) by {
      assert LegacyTags[n].0 != s[1];
    }
    var rest := OnePass(s[2..], n);
    forall i: nat | i < |t| ensures !OccursAt(t + rest, p, i) {
      if i + |p| <= |t + rest| {
        assert (t + rest)[i..i + |p|][0] == t[i];
        assert t[i] != '&';
      }
    }
    ReplaceAppend(t, rest, p, LegacyTags[n].1);
  }

  /** Step of `ReplaceExtendsOnePass` at the code the new replace adds: the
      pass kept `&` and the code, and the replace rewrites them. */
  lemma ExtendAtNewCode(s: string, n: nat)
    requires n < |LegacyTags| && |s| >= 2 && s[0] == '&' && s[1] == LegacyTags[n].0 && CodeIndex(s[1], n).None?
    requires Replace(OnePass(s[2..], n), ['&', LegacyTags[n].0], LegacyTags[n].1) == OnePass(s[2..], n + 1)
    ensures Replace(OnePass(s, n), ['&', LegacyTags[n].0], LegacyTags[n].1) == OnePass(s, n + 1)
  {
    var p := ['&', LegacyTags[n].0];
    OnePassAtNewCode(s, n);
    var out := p + OnePass(s[2..], n);
    assert out[..|p|] == p && out[|p|..] == OnePass(s[2..], n);
    ReplaceAtStart(out, p, LegacyTags[n].1);
  }

  /** Before the code is known the pass keeps `&` and the code; after, it
      writes the tag. */
  lemma OnePassAtNewCode(s: string, n: nat)
    requires n < |LegacyTags| && |s| >= 2 && s[0] == '&' && s[1] == LegacyTags[n].0 && CodeIndex(s[1], n).None?
    ensures OnePass(s, n) == ['&', LegacyTags[n].0] + OnePass(s[2..], n)
    ensures OnePass(s, n + 1) == LegacyTags[n].1 + OnePass(s[2..], n + 1)
  {
    LegacyCodesPlain();
    assert s[1..][1..] == s[2..] && s[1] != '&';
    assert OnePass(s[1..], n) == [s[1]] + OnePass(s[2..], n);
    assert CodeIndex(s[1], n + 1) == Some(n);
  }

  /** Step of `ReplaceExtendsOnePass` at any other character: it is kept,
      and what follows cannot complete the new target with it. */
  lemma ExtendAtOther(s: string, n: nat)
    requires n < |LegacyTags| && s != []
    requires |s| < 2 || s[0] != '&' || CodeIndex(s[1], n + 1).None?
    requires Replace(OnePass(s[1..], n), ['&', LegacyTags[n].0], LegacyTags[n].1) == OnePass(s[1..], n + 1)
    ensures Replace(OnePass(s, n), ['&', LegacyTags[n].0], LegacyTags[n].1) == OnePass(s, n + 1)
  {
    LegacyCodesPlain();
    var out := OnePass(s, n);
    assert out == [s[0]] + OnePass(s[1..], n);
    assert OnePass(s, n + 1) == [s[0]] + OnePass(s[1..], n + 1);
    if |out| >= 2 {
      assert s[1..] != [];
      OnePassHead(s[1..], n);
      assert s[1..][0] == s[1];
      assert out[1] == OnePass(s[1..], n)[0];
      assert out[0] != '&' || out[1] != LegacyTags[n].0;
      assert out[..2][0] == out[0] && out[..2][1] == out[1];
      assert out[1..] == OnePass(s[1..], n);
    }
  }

  /** The chain of the first `n` replaces is the one-pass translation with
      the first `n` codes. */
  lemma {:induction false} ChainIsOnePass(s: string, n: nat)
    requires n <= |LegacyTags|
    ensures TranslateChain(s, n) == OnePass(s, n)
  {
    if n == 0 {
      OnePassKnowingNothing(s);
    } else {
      ChainIsOnePass(s, n - 1);
      ReplaceExtendsOnePass(s, n - 1);
    }
  }

  lemma {:induction false} OnePassKnowingNothing(s: string)
    ensures OnePass(s, 0) == s
    decreases |s|
  {
    if s != [] {
      OnePassKnowingNothing(s[1..]);
    }
  }

  /** Text in which no `&` is followed by a lower-case code is unchanged; in
      particular text without `&`, or with upper-case codes such as `&A`. */
  lemma {:induction false} TranslateKeepsTextWithoutCodes(s: string)
    requires forall k :: 0 <= k < |s| - 1 ==> s[k] == '&' ==> CodeIndex(s[k + 1], |LegacyTags|).None?
    ensures TranslateLegacyToMiniMessage(s) == s
  {
    OnePassWithoutCodes(s);
  }

  lemma {:induction false} OnePassWithoutCodes(s: string)
    requires forall k :: 0 <= k < |s| - 1 ==> s[k] == '&' ==> CodeIndex(s[k + 1], |LegacyTags|).None?
    ensures OnePass(s, |LegacyTags|) == s
    decreases |s|
  {
    if s != [] {
      var t := s[1..];
      forall k | 0 <= k < |t| - 1 ensures t[k] == '&' ==> CodeIndex(t[k + 1], |LegacyTags|).None? {
        assert t[k] == s[k + 1] && t[k + 1] == s[k + 2];
      }
      OnePassWithoutCodes(s[1..]);
    }
  }

  /** A code followed by text without codes: the tag, then the text as it
      was (for example `&aHi &A` becomes `<green>Hi &A`). */
  lemma TranslateCodeThenText(k: nat, t: string)
    requires k < |LegacyTags|
    requires forall i :: 0 <= i < |t| - 1 ==> t[i] == '&' ==> CodeIndex(t[i + 1], |LegacyTags|).None?
    requires t != [] ==> t[0] != '&' || CodeIndex(t[0], |LegacyTags|).None?
    ensures TranslateLegacyToMiniMessage(['&', LegacyTags[k].0] + t) == LegacyTags[k].1 + t
  {
    var s, n := ['&', LegacyTags[k].0] + t, |LegacyTags|;
    CodeIndexFinds(k, n);
    assert s[2..] == t;
    OnePassWithoutCodes(t);
  }

  /** Upper-case letters are not codes. */
  lemma UpperCaseIsNoCode(c: char)
    requires 'A' <= c <= 'Z'
    ensures CodeIndex(c, |LegacyTags|).None?
  {
    LegacyCodesLowerCase();
  }

  // ---------------------------------------------------------------------
  // downsampleToLegacySimple
  // ---------------------------------------------------------------------

  /** The first index at or after `i` holding `c`. */
  function IndexOfFrom(s: string, c: char, i: nat): (r: Option<nat>)
    requires i <= |s|
    ensures r.Some? ==> i <= r.value < |s| && s[r.value] == c && forall k :: i <= k < r.value ==> s[k] != c
    ensures r.None? ==> forall k :: i <= k < |s| ==> s[k] != c
    decreases |s| - i
  {
    if i == |s| then None else if s[i] == c then Some(i) else IndexOfFrom(s, c, i + 1)
  }

  /** The regular expressions `downsampleToLegacySimple` hands to `replaceAll`. */
  datatype Pattern =
    | HexOpen       // <#[0-9A-Fa-f]{6}>
    | HexClose      // </#[0-9A-Fa-f]{6}>
    | GradientOpen  // <gradient:[^>]+>
    | AnyTag        // <[^>]+>

  /** The length of the match of `p` at the start of `s`, 0 when there is
      none. `[^>]+` is greedy and cannot pass a `>`, so it ends at the first
      `>` and needs at least one character before it. */
  function MatchLength(p: Pattern, s: string): (n: nat)
    ensures n <= |s|
    ensures n > 0 ==> s[0] == '<' && s[n - 1] == '>'
  {
    match p
    case HexOpen =>
      if |s| >= 9 && s[0] == '<' && s[1] == '#' && s[8] == '>'
        && forall k :: 2 <= k < 8 ==> IsHexDigit(s[k]) then 9 else 0
    case HexClose =>
      if |s| >= 10 && s[0] == '<' && s[1] == '/' && s[2] == '#' && s[9] == '>'
        && forall k :: 3 <= k < 9 ==> IsHexDigit(s[k]) then 10 else 0
    case GradientOpen =>
      if StartsWith(s, "<gradient:") then
        match IndexOfFrom(s, '>', 10)
        case Some(j) => if j >= 11 then j + 1 else 0
        case None => 0
      else 0
    case AnyTag =>
      if |s| >= 1 && s[0] == '<' then
        match IndexOfFrom(s, '>', 1)
        case Some(j) => if j >= 2 then j + 1 else 0
        case None => 0
      else 0
  }

  /** `String.replaceAll(p, r)`: matches are found left to right, the search
      resuming after each match; the result is not searched again. */
  function ReplaceAllPattern(s: string, p: Pattern, r: string): string
    decreases |s|
  {
    if s == [] then []
    else if MatchLength(p, s) > 0 then r + ReplaceAllPattern(s[MatchLength(p, s)..], p, r)
    else [s[0]] + ReplaceAllPattern(s[1..], p, r)
  }

  /** The literal replacements of formats and colours, in call order. */
  const FormatTags: seq<(string, string)> := [
    ("<bold>", "§l"), ("</bold>", "§r"), ("<italic>", "§o"), ("</italic>", "§r"),
    ("<underlined>", "§n"), ("</underlined>", "§r"), ("<strikethrough>", "§m"),
    ("</strikethrough>", "§r"), ("<obfuscated>", "§k"), ("</obfuscated>", "§r")]

  const ColorTags: seq<(string, string)> := [
    ("<black>", ['§', '0']), ("<dark_blue>", ['§', '1']), ("<dark_green>", ['§', '2']), ("<dark_aqua>", ['§', '3']),
    ("<dark_red>", ['§', '4']), ("<dark_purple>", ['§', '5']), ("<gold>", ['§', '6']), ("<gray>", ['§', '7']),
    ("<dark_gray>", ['§', '8']), ("<blue>", ['§', '9']), ("<green>", ['§', 'a']), ("<aqua>", ['§', 'b']),
    ("<red>", ['§', 'c']), ("<light_purple>", ['§', 'd']), ("<yellow>", ['§', 'e']), ("<white>", ['§', 'f'])]

  /** One call of `downsampleToLegacySimple`: a `replaceAll` with one of the
      patterns above, or a literal replacement (`replace`, or a `replaceAll`
      whose regular expression has no special character). */
  datatype Stage = Regex(pattern: Pattern, repl: string) | Literal(target: string, repl: string)

  function Literals(pairs: seq<(string, string)>): (r: seq<Stage>)
    ensures |r| == |pairs|
    ensures forall k :: 0 <= k < |pairs| ==> r[k] == Literal(pairs[k].0, pairs[k].1)
  {
    seq(|pairs|, k requires 0 <= k < |pairs| => Literal(pairs[k].0, pairs[k].1))
  }

  /** The calls of `downsampleToLegacySimple`, in order. */
  const SimpleStages: seq<Stage> :=
    [Regex(HexOpen, ""), Regex(HexClose, ""), Regex(GradientOpen, "§f"),
     Literal("</gradient>", "§r"), Literal("<rainbow>", "§b"), Literal("</rainbow>", "§r")]
    + Literals(FormatTags) + Literals(ColorTags) + [Regex(AnyTag, "")]

  /** A tag as the patterns see it: `<`, then neither `<` nor `>`, then `>`
      (and something between the two). */
  predicate ClosedTag(x: string) {
    |x| >= 3 && x[0] == '<' && x[|x| - 1] == '>' &&
    forall k :: 0 < k < |x| - 1 ==> x[k] != '<' && x[k] != '>'
  }

  /** Every literal target is a tag and no replacement brings in a `<`. */
  predicate StageOk(st: Stage) {
    match st
    case Regex(_, r) => '<' !in r
    case Literal(p, r) => ClosedTag(p) && '<' !in r
  }

  predicate StagesOk(sts: seq<Stage>) {
    forall k :: 0 <= k < |sts| ==> StageOk(sts[k])
  }

  function ApplyStage(st: Stage, s: string): string
    requires StageOk(st)
  {
    match st
    case Regex(p, r) => ReplaceAllPattern(s, p, r)
    case Literal(p, r) => Replace(s, p, r)
  }

  /** The calls applied in order, each to the result of the one before. */
  function ApplyStages(s: string, sts: seq<Stage>): string
    requires StagesOk(sts)
    decreases |sts|
  {
    if sts == [] then s
    else
      assert StagesOk(sts[..|sts| - 1]);
      ApplyStage(sts[|sts| - 1], ApplyStages(s, sts[..|sts| - 1]))
  }

  /** `downsampleToLegacySimple`. */
  function DownsampleToLegacySimple(text: Option<string>): (r: string)
    ensures text.None? ==> r == ""
    ensures text.Some? && '<' !in text.value ==> r == text.value
    ensures NoTags(r)
  {
    match text
    case None => ""
    case Some(t) =>
      SimpleStagesOk();
      StagesKeepPlainText(t, SimpleStages);
      var n := |SimpleStages| - 1;
      assert SimpleStages[n] == Regex(AnyTag, "");
      assert StagesOk(SimpleStages[..n]);
      StripTagsLeavesNone(ApplyStages(t, SimpleStages[..n]));
      ApplyStages(t, SimpleStages)
  }

  /** No match of `<[^>]+>` starts anywhere in the text. */
  predicate NoTags(s: string) {
    forall k :: 0 <= k < |s| ==> MatchLength(AnyTag, s[k..]) == 0
  }

  lemma SimpleStagesOk()
    ensures StagesOk(SimpleStages)
  {
    var prelude := [Regex(HexOpen, ""), Regex(HexClose, ""), Regex(GradientOpen, "§f"),
                    Literal("</gradient>", "§r"), Literal("<rainbow>", "§b"), Literal("</rainbow>", "§r")];
    PreludeStagesOk();
    FormatStagesOk();
    ColorStagesOk();
    assert StagesOk([Regex(AnyTag, "")]);
    StagesOkAppend(prelude, Literals(FormatTags));
    StagesOkAppend(prelude + Literals(FormatTags), Literals(ColorTags));
    StagesOkAppend(prelude + Literals(FormatTags) + Literals(ColorTags), [Regex(AnyTag, "")]);
  }

  lemma PreludeStagesOk()
    ensures StagesOk([Regex(HexOpen, ""), Regex(HexClose, ""), Regex(GradientOpen, "§f"),
                      Literal("</gradient>", "§r"), Literal("<rainbow>", "§b"), Literal("</rainbow>", "§r")])
  {
    assert ClosedTag("</gradient>");
    assert ClosedTag("<rainbow>");
    assert ClosedTag("</rainbow>");
  }

  lemma FormatStagesOk()
    ensures StagesOk(Literals(FormatTags))
  {
    FormatTargetsClosed();
    assert forall k :: 0 <= k < |FormatTags| ==> '<' !in FormatTags[k].1;
  }

  lemma ColorStagesOk()
    ensures StagesOk(Literals(ColorTags))
  {
    ColorTargetsClosed();
    assert forall k :: 0 <= k < |ColorTags| ==> '<' !in ColorTags[k].1;
  }

  lemma StagesOkAppend(a: seq<Stage>, b: seq<Stage>)
    requires StagesOk(a) && StagesOk(b)
    ensures StagesOk(a + b)
  {
    assert forall k :: |a| <= k < |a + b| ==> (a + b)[k] == b[k - |a|];
  }

  /** A call fires on a tag at the start of the text when its pattern
      matches the tag, or the tag is its literal target. */
  predicate Fires(st: Stage, y: string) {
    match st
    case Regex(p, _) => MatchLength(p, y) > 0
    case Literal(p, _) => y == p
  }

  /** What the calls make of a leading tag: it stays until the first call
      that fires on it, which puts its replacement in its place. */
  function TagOut(y: string, sts: seq<Stage>): string
    decreases |sts|
  {
    if sts == [] then y
    else
      var o := TagOut(y, sts[..|sts| - 1]);
      if Fires(sts[|sts| - 1], o) then sts[|sts| - 1].repl else o
  }

  /** A pattern does not match in a text without `<`. */
  lemma {:induction false} PatternSkipsPlain(a: string, t: string, p: Pattern, r: string)
    requires '<' !in a
    ensures ReplaceAllPattern(a + t, p, r) == a + ReplaceAllPattern(t, p, r)
    decreases |a|
  {
    if a == [] {
      assert a + t == t;
    } else {
      assert a[0] in a;
      assert (a + t)[0] == a[0] && (a + t)[1..] == a[1..] + t;
      assert forall c :: c in a[1..] ==> c in a;
      PatternSkipsPlain(a[1..], t, p, r);
      assert a == [a[0]] + a[1..];
    }
  }

  lemma LiteralSkipsPlain(a: string, t: string, p: string, r: string)
    requires '<' !in a && |p| > 0 && p[0] == '<'
    ensures Replace(a + t, p, r) == a + Replace(t, p, r)
  {
    forall i: nat | i < |a| ensures !OccursAt(a + t, p, i) {
      assert a[i] in a;
      if i + |p| <= |a + t| {
        assert (a + t)[i..i + |p|][0] == a[i];
      }
    }
    ReplaceAppend(a, t, p, r);
  }

  /** The first `>` of a tag followed by any text is the tag's last character. */
  lemma TagEnd(x: string, t: string, i: nat)
    requires ClosedTag(x) && 1 <= i < |x|
    ensures IndexOfFrom(x + t, '>', i) == Some(|x| - 1)
    ensures IndexOfFrom(x, '>', i) == Some(|x| - 1)
  {
    var s := x + t;
    assert s[|x| - 1] == '>';
    assert forall k :: i <= k < |x| - 1 ==> s[k] == x[k] && s[k] != '>';
  }

  /** Whether a pattern matches at a tag does not depend on what follows the
      tag, and a match takes the whole tag. */
  lemma MatchAtTag(p: Pattern, x: string, t: string)
    requires ClosedTag(x)
    ensures MatchLength(p, x + t) == MatchLength(p, x)
    ensures MatchLength(p, x) == 0 || MatchLength(p, x) == |x|
  {
    var s := x + t;
    assert forall k :: 0 <= k < |x| ==> s[k] == x[k];
    match p
    case HexOpen =>
      if |x| < 9 {
        assert s[|x| - 1] == '>' && !IsHexDigit('>');
      }
    case HexClose =>
      if |x| < 10 {
        assert s[|x| - 1] == '>' && !IsHexDigit('>');
      }
    case GradientOpen =>
      var g := "<gradient:";
      if |x| <= 10 {
        assert s[|x| - 1] == '>' && g[|x| - 1] != '>';
        assert !StartsWith(s, g) by {
          if |g| <= |s| {
            assert s[..|g|][|x| - 1] == s[|x| - 1];
          }
        }
      } else {
        assert s[..|g|] == x[..|g|];
        TagEnd(x, t, 10);
      }
    case AnyTag =>
      TagEnd(x, t, 1);
  }

  lemma PatternAtTag(x: string, t: string, p: Pattern, r: string)
    requires ClosedTag(x)
    ensures ReplaceAllPattern(x + t, p, r) == (if MatchLength(p, x) > 0 then r else x) + ReplaceAllPattern(t, p, r)
  {
    MatchAtTag(p, x, t);
    var s := x + t;
    if MatchLength(p, x) > 0 {
      assert s[|x|..] == t;
    } else {
      assert s[1..] == x[1..] + t;
      assert forall k :: 0 <= k < |x[1..]| ==> x[1..][k] == x[k + 1];
      PatternSkipsPlain(x[1..], t, p, r);
      assert x == [x[0]] + x[1..];
    }
  }

  /** A literal tag occurs at the start of a tag followed by any text only
      when the two tags are equal. */
  lemma LiteralAtTag(x: string, t: string, p: string, r: string)
    requires ClosedTag(x) && ClosedTag(p)
    ensures Replace(x + t, p, r) == (if x == p then r else x) + Replace(t, p, r)
  {
    var s := x + t;
    if x == p {
      assert s[..|p|] == p && s[|p|..] == t;
    } else {
      forall i: nat | i < |x| ensures !OccursAt(s, p, i) {
        if i + |p| <= |s| {
          var w := s[i..i + |p|];
          if i > 0 {
            assert w[0] == x[i];
          } else if |p| <= |x| {
            assert w == x[..|p|];
            assert |p| == |x| ==> x[..|p|] == x;
          } else {
            assert w[|x| - 1] == x[|x| - 1];
          }
        }
      }
      ReplaceAppend(x, t, p, r);
    }
  }

  /** One call on a text that starts with a tag (or with text without `<`). */
  lemma StageAtTag(st: Stage, y: string, t: string)
    requires StageOk(st) && (ClosedTag(y) || '<' !in y)
    ensures ApplyStage(st, y + t) == (if Fires(st, y) then st.repl else y) + ApplyStage(st, t)
  {
    match st
    case Regex(p, r) =>
      if ClosedTag(y) {
        PatternAtTag(y, t, p, r);
      } else {
        PatternSkipsPlain(y, t, p, r);
        if |y| > 0 {
          assert y[0] in y;
        }
      }
    case Literal(p, r) =>
      if ClosedTag(y) {
        LiteralAtTag(y, t, p, r);
      } else {
        LiteralSkipsPlain(y, t, p, r);
        if |y| > 0 {
          assert y[0] in y;
        }
      }
  }

  /** The calls treat a leading tag on its own: the text after it is
      processed as if the tag were not there. */
  lemma {:induction false} StagesAtTag(y: string, t: string, sts: seq<Stage>)
    requires StagesOk(sts) && (ClosedTag(y) || '<' !in y)
    ensures ApplyStages(y + t, sts) == TagOut(y, sts) + ApplyStages(t, sts)
    ensures TagOut(y, sts) == y || '<' !in TagOut(y, sts)
    decreases |sts|
  {
    if sts != [] {
      var init := sts[..|sts| - 1];
      assert StagesOk(init);
      StagesAtTag(y, t, init);
      StageAtTag(sts[|sts| - 1], TagOut(y, init), ApplyStages(t, init));
    }
  }

  /** Text without `<` goes through every call unchanged. */
  lemma {:induction false} StagesKeepPlainText(a: string, sts: seq<Stage>)
    requires StagesOk(sts)
    ensures '<' !in a ==> ApplyStages(a, sts) == a
    decreases |sts|
  {
    if sts != [] && '<' !in a {
      var init := sts[..|sts| - 1];
      assert StagesOk(init);
      StagesKeepPlainText(a, init);
      StageAtTag(sts[|sts| - 1], a, "");
      assert a + "" == a;
      match sts[|sts| - 1]
      case Regex(p, r) =>
      case Literal(p, r) =>
        assert |""| < |p|;
    }
  }

  /** A call never fires on text without `<`. */
  lemma NoFireOnPlain(st: Stage, y: string)
    requires StageOk(st) && '<' !in y
    ensures !Fires(st, y)
  {
    match st
    case Regex(p, _) =>
      if |y| > 0 {
        assert y[0] in y;
      }
    case Literal(p, _) =>
      if |y| > 0 {
        assert y[0] in y;
      }
  }

  /** The first call that fires on a tag decides what the tag becomes. */
  lemma {:induction false} TagOutFirstFiring(x: string, sts: seq<Stage>, m: nat)
    requires StagesOk(sts) && m < |sts| && Fires(sts[m], x)
    requires forall j :: 0 <= j < m ==> !Fires(sts[j], x)
    ensures TagOut(x, sts) == sts[m].repl
    decreases |sts|
  {
    var init := sts[..|sts| - 1];
    assert StagesOk(init);
    if m < |sts| - 1 {
      TagOutFirstFiring(x, init, m);
      NoFireOnPlain(sts[|sts| - 1], sts[m].repl);
    } else {
      TagOutNoFiring(x, init);
    }
  }

  /** A tag no call fires on stays as it is. */
  lemma {:induction false} TagOutNoFiring(x: string, sts: seq<Stage>)
    requires forall j :: 0 <= j < |sts| ==> !Fires(sts[j], x)
    ensures TagOut(x, sts) == x
    decreases |sts|
  {
    if sts != [] {
      TagOutNoFiring(x, sts[..|sts| - 1]);
    }
  }

  /** A tag at the start of the text is downsampled on its own: into its
      legacy code, `§f`, `§b`, `§r` or nothing, and the rest of the text as
      if the tag were not there. */
  lemma DownsampleTagThenText(x: string, t: string)
    requires ClosedTag(x)
    ensures DownsampleToLegacySimple(Some(x + t)) == TagOut(x, SimpleStages) + DownsampleToLegacySimple(Some(t))
  {
    SimpleStagesOk();
    StagesAtTag(x, t, SimpleStages);
  }

  /** Where each call stands in `SimpleStages`. */
  lemma SimpleStagesLayout()
    ensures |SimpleStages| == 33
    ensures SimpleStages[0] == Regex(HexOpen, "") && SimpleStages[1] == Regex(HexClose, "")
    ensures SimpleStages[2] == Regex(GradientOpen, "§f")
    ensures SimpleStages[3] == Literal("</gradient>", "§r") && SimpleStages[4] == Literal("<rainbow>", "§b")
    ensures SimpleStages[5] == Literal("</rainbow>", "§r")
    ensures forall k :: 0 <= k < |FormatTags| ==> SimpleStages[6 + k] == Literal(FormatTags[k].0, FormatTags[k].1)
    ensures forall k :: 0 <= k < |ColorTags| ==> SimpleStages[16 + k] == Literal(ColorTags[k].0, ColorTags[k].1)
    ensures SimpleStages[32] == Regex(AnyTag, "")
  {
  }

  /** `<black>` … `<white>` become their legacy codes: a colour tag in front
      of any text is replaced by its code, and the text after it is
      downsampled as if the tag were not there. */
  lemma DownsampleColorTag(k: nat, t: string)
    requires k < |ColorTags|
    ensures DownsampleToLegacySimple(Some(ColorTags[k].0 + t)) == ColorTags[k].1 + DownsampleToLegacySimple(Some(t))
  {
    var x := ColorTags[k].0;
    LiteralTargets();
    ColorTargetsDistinct();
    FormatAndColorTargetsDistinct();
    PreludeTargetsDistinct();
    PreludeSkips(x);
    SimpleStagesOk();
    SimpleStagesLayout();
    forall j | 6 <= j < 16 + k ensures !Fires(SimpleStages[j], x) {
      if j < 16 {
        assert SimpleStages[j] == Literal(FormatTags[j - 6].0, FormatTags[j - 6].1);
      } else if 16 <= j {
        assert SimpleStages[j] == Literal(ColorTags[j - 16].0, ColorTags[j - 16].1);
      }
    }
    TagOutFirstFiring(x, SimpleStages, 16 + k);
    DownsampleTagThenText(x, t);
  }

  /** `<bold>` … `</obfuscated>`: an opening format tag becomes its code and
      a closing one `§r`. */
  lemma DownsampleFormatTag(k: nat, t: string)
    requires k < |FormatTags|
    ensures DownsampleToLegacySimple(Some(FormatTags[k].0 + t)) == FormatTags[k].1 + DownsampleToLegacySimple(Some(t))
  {
    var x := FormatTags[k].0;
    LiteralTargets();
    FormatTargetsDistinct();
    PreludeTargetsDistinct();
    PreludeSkips(x);
    SimpleStagesOk();
    SimpleStagesLayout();
    forall j | 6 <= j < 6 + k ensures !Fires(SimpleStages[j], x) {
      assert SimpleStages[j] == Literal(FormatTags[j - 6].0, FormatTags[j - 6].1);
    }
    TagOutFirstFiring(x, SimpleStages, 6 + k);
    DownsampleTagThenText(x, t);
  }

  /** A `<gradient:…>` tag becomes `§f`. */
  lemma DownsampleGradient(args: string, t: string)
    requires |args| > 0 && '<' !in args && '>' !in args
    ensures DownsampleToLegacySimple(Some("<gradient:" + args + ">" + t)) == "§f" + DownsampleToLegacySimple(Some(t))
  {
    var x := "<gradient:" + args + ">";
    assert forall k :: 10 <= k < |x| - 1 ==> x[k] == args[k - 10] && x[k] in args;
    assert ClosedTag(x);
    TagEnd(x, "", 10);
    assert StartsWith(x, "<gradient:");
    SimpleStagesOk();
    SimpleStagesLayout();
    TagOutFirstFiring(x, SimpleStages, 2);
    DownsampleTagThenText(x, t);
    assert x + t == "<gradient:" + args + ">" + t;
  }

  /** `</gradient>` becomes `§r`. */
  lemma DownsampleGradientClose(t: string)
    ensures DownsampleToLegacySimple(Some("</gradient>" + t)) == "§r" + DownsampleToLegacySimple(Some(t))
  {
    var x := "</gradient>";
    assert ClosedTag(x) && '#' !in x && ':' !in x;
    PreludeLiteralTag(x, t, 3);
  }

  /** `<rainbow>` becomes `§b`. */
  lemma DownsampleRainbow(t: string)
    ensures DownsampleToLegacySimple(Some("<rainbow>" + t)) == "§b" + DownsampleToLegacySimple(Some(t))
  {
    var x := "<rainbow>";
    assert ClosedTag(x) && '#' !in x && ':' !in x;
    assert x != "</gradient>";
    PreludeLiteralTag(x, t, 4);
  }

  /** `</rainbow>` becomes `§r`. */
  lemma DownsampleRainbowClose(t: string)
    ensures DownsampleToLegacySimple(Some("</rainbow>" + t)) == "§r" + DownsampleToLegacySimple(Some(t))
  {
    var x := "</rainbow>";
    assert ClosedTag(x) && '#' !in x && ':' !in x;
    assert x != "</gradient>" && x != "<rainbow>";
    PreludeLiteralTag(x, t, 5);
  }

  /** One of the three literal calls that come before the format table. */
  lemma PreludeLiteralTag(x: string, t: string, m: nat)
    requires 3 <= m < 6 && ClosedTag(x) && '#' !in x && ':' !in x
    requires SimpleStages[m].target == x
    requires forall j :: 3 <= j < m ==> SimpleStages[j].target != x
    ensures DownsampleToLegacySimple(Some(x + t)) == SimpleStages[m].repl + DownsampleToLegacySimple(Some(t))
  {
    SimpleStagesOk();
    SimpleStagesLayout();
    PreludePatternsSkip(x);
    TagOutFirstFiring(x, SimpleStages, m);
    DownsampleTagThenText(x, t);
  }

  /** A tag without `#` and `:` that is none of the three literal targets
      there passes the first six calls. */
  lemma PreludeSkips(x: string)
    requires ClosedTag(x) && '#' !in x && ':' !in x && x !in ["</gradient>", "<rainbow>", "</rainbow>"]
    ensures forall j :: 0 <= j < 6 ==> !Fires(SimpleStages[j], x)
  {
    SimpleStagesLayout();
    PreludePatternsSkip(x);
  }

  /** `<#RRGGBB>` and `</#RRGGBB>` are dropped. */
  lemma DownsampleHexTags(hex: string, t: string)
    requires |hex| == 6 && forall k :: 0 <= k < 6 ==> IsHexDigit(hex[k])
    ensures DownsampleToLegacySimple(Some("<#" + hex + ">" + t)) == DownsampleToLegacySimple(Some(t))
    ensures DownsampleToLegacySimple(Some("</#" + hex + ">" + t)) == DownsampleToLegacySimple(Some(t))
  {
    SimpleStagesOk();
    SimpleStagesLayout();
    var x := "<#" + hex + ">";
    assert forall k :: 2 <= k < 8 ==> x[k] == hex[k - 2];
    assert ClosedTag(x) && MatchLength(HexOpen, x) == 9;
    TagOutFirstFiring(x, SimpleStages, 0);
    DownsampleTagThenText(x, t);
    assert x + t == "<#" + hex + ">" + t;
    var y := "</#" + hex + ">";
    assert forall k :: 3 <= k < 9 ==> y[k] == hex[k - 3];
    assert ClosedTag(y) && MatchLength(HexClose, y) == 10 && MatchLength(HexOpen, y) == 0;
    TagOutFirstFiring(y, SimpleStages, 1);
    DownsampleTagThenText(y, t);
    assert y + t == "</#" + hex + ">" + t;
  }

  /** Any other tag is removed by the last call. */
  lemma DownsampleOtherTag(x: string, t: string)
    requires ClosedTag(x)
    requires MatchLength(HexOpen, x) == 0 && MatchLength(HexClose, x) == 0 && MatchLength(GradientOpen, x) == 0
    requires x !in ["</gradient>", "<rainbow>", "</rainbow>"]
    requires forall k :: 0 <= k < |FormatTags| ==> x != FormatTags[k].0
    requires forall k :: 0 <= k < |ColorTags| ==> x != ColorTags[k].0
    ensures DownsampleToLegacySimple(Some(x + t)) == DownsampleToLegacySimple(Some(t))
  {
    SimpleStagesOk();
    SimpleStagesLayout();
    MatchAtTag(AnyTag, x, "");
    TagEnd(x, "", 1);
    forall j | 0 <= j < 32 ensures !Fires(SimpleStages[j], x) {
      if 6 <= j < 16 {
        assert SimpleStages[j] == Literal(FormatTags[j - 6].0, FormatTags[j - 6].1);
      } else if 16 <= j {
        assert SimpleStages[j] == Literal(ColorTags[j - 16].0, ColorTags[j - 16].1);
      }
    }
    TagOutFirstFiring(x, SimpleStages, 32);
    DownsampleTagThenText(x, t);
  }

  /** The targets of the format and colour tables are tags without `#` and
      `:`. */
  lemma LiteralTargets()
    ensures forall k :: 0 <= k < |FormatTags| ==> ClosedTag(FormatTags[k].0) && '#' !in FormatTags[k].0 && ':' !in FormatTags[k].0
    ensures forall k :: 0 <= k < |ColorTags| ==> ClosedTag(ColorTags[k].0) && '#' !in ColorTags[k].0 && ':' !in ColorTags[k].0
  {
    FormatTargetsClosed();
    FormatTargetsPlain();
    ColorTargetsClosed();
    ColorTargetsPlain();
  }

  lemma FormatTargetsClosed()
    ensures forall k :: 0 <= k < |FormatTags| ==> ClosedTag(FormatTags[k].0)
  {
  }

  lemma FormatTargetsPlain()
    ensures forall k :: 0 <= k < |FormatTags| ==> '#' !in FormatTags[k].0 && ':' !in FormatTags[k].0
  {
  }

  lemma ColorTargetsClosed()
    ensures forall k :: 0 <= k < |ColorTags| ==> ClosedTag(ColorTags[k].0)
  {
  }

  lemma ColorTargetsPlain()
    ensures forall k :: 0 <= k < |ColorTags| ==> '#' !in ColorTags[k].0 && ':' !in ColorTags[k].0
  {
  }

  /** No two calls of the simple downsampler replace the same literal tag. */
  lemma ColorTargetsDistinct()
    ensures forall i, j :: 0 <= i < j < |ColorTags| ==> ColorTags[i].0 != ColorTags[j].0
  {
  }

  lemma FormatTargetsDistinct()
    ensures forall i, j :: 0 <= i < j < |FormatTags| ==> FormatTags[i].0 != FormatTags[j].0
  {
  }

  lemma FormatAndColorTargetsDistinct()
    ensures forall i, j :: 0 <= i < |FormatTags| && 0 <= j < |ColorTags| ==> FormatTags[i].0 != ColorTags[j].0
  {
  }

  lemma PreludeTargetsDistinct()
    ensures forall k :: 0 <= k < |FormatTags| ==> FormatTags[k].0 !in ["</gradient>", "<rainbow>", "</rainbow>"]
    ensures forall k :: 0 <= k < |ColorTags| ==> ColorTags[k].0 !in ["</gradient>", "<rainbow>", "</rainbow>"]
  {
  }

  /** None of the three patterns that come first matches a tag without `#`
      and `:`. */
  lemma PreludePatternsSkip(x: string)
    requires ClosedTag(x) && '#' !in x && ':' !in x
    ensures MatchLength(HexOpen, x) == 0 && MatchLength(HexClose, x) == 0 && MatchLength(GradientOpen, x) == 0
  {
    assert x[1] in x && x[2] in x;
    if |x| >= 10 {
      assert x[9] in x && x[..10][9] == x[9];
    }
  }

  /** Removing matches only drops characters: none is added. */
  lemma {:induction false} StripTagsKeepsChars(s: string, c: char)
    requires c !in s
    ensures c !in ReplaceAllPattern(s, AnyTag, "")
    decreases |s|
  {
    if s != [] {
      var n := MatchLength(AnyTag, s);
      var rest := if n > 0 then s[n..] else s[1..];
      assert forall x :: x in rest ==> x in s;
      StripTagsKeepsChars(rest, c);
    }
  }

  /** What is left after the last `replaceAll("<[^>]+>", "")` holds no tag:
      a `<` that stays is followed by `>` at once or by no `>` at all, and
      removing tags does not change that. */
  lemma {:induction false} StripTagsLeavesNone(s: string)
    ensures NoTags(ReplaceAllPattern(s, AnyTag, ""))
    decreases |s|
  {
    var out := ReplaceAllPattern(s, AnyTag, "");
    if s == [] {
    } else if MatchLength(AnyTag, s) > 0 {
      StripTagsLeavesNone(s[MatchLength(AnyTag, s)..]);
      var n := MatchLength(AnyTag, s);
      assert out == ReplaceAllPattern(s[n..], AnyTag, "");
      assert NoTags(ReplaceAllPattern(s[n..], AnyTag, ""));
    } else {
      var tail := ReplaceAllPattern(s[1..], AnyTag, "");
      StripTagsLeavesNone(s[1..]);
      assert out == [s[0]] + tail;
      forall k | 1 <= k < |out| ensures MatchLength(AnyTag, out[k..]) == 0 {
        assert out[k..] == tail[k - 1..];
      }
      assert MatchLength(AnyTag, out[0..]) == 0 by {
        assert out[0..] == out;
        if s[0] == '<' {
          match IndexOfFrom(s, '>', 1)
          case None =>
            assert '>' !in s[1..];
            StripTagsKeepsChars(s[1..], '>');
            assert IndexOfFrom(out, '>', 1).None?;
          case Some(j) =>
            assert j == 1;
            var rest := s[1..];
            assert rest[0] == '>' && MatchLength(AnyTag, rest) == 0;
            assert tail[0] == '>';
            assert out[1] == '>';
            assert IndexOfFrom(out, '>', 1) == Some(1);
        }
      }
    }
  }
}
