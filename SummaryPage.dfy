/** The summary page (`frontend/src/all/summary.jsx`): the user types the
    symbols they are interested in, separated by white space; the page keeps
    them as upper-case tokens, shows them joined by single spaces, and gives
    each a highlight, a background colour with a font colour that contrasts
    with it. */
module SummaryPage {
  import opened Wrappers
  import opened Text

  // ---------------------------------------------------------------------------
  // the tokenizer: value.split(/\s+/g).map(trim).map(toUpperCase)
  // ---------------------------------------------------------------------------

  /** JavaScript `s.split(/\s+/g)`: the pieces between runs of white space.
      White space at the start or at the end gives an empty first or last
      piece, and the empty string gives `[""]`. A run of several white-space
      characters separates like a single one. */
  function SplitWs(s: string): (r: seq<string>)
    ensures |r| >= 1
  {
    if s == [] then [[]]
    else if !IsSpace(s[0]) then
      var r := SplitWs(s[1..]);
      [[s[0]] + r[0]] + r[1..]
    else if |s| > 1 && IsSpace(s[1]) then SplitWs(s[1..])
    else [[]] + SplitWs(s[1..])
  }

  /** The interests typed into the box. */
  function Interests(value: string): (r: seq<string>)
    ensures |r| == |SplitWs(value)|
  {
    var pieces := SplitWs(value);
    seq(|pieces|, k requires 0 <= k < |pieces| => ToUpper(Trim(pieces[k])))
  }

  /** The text the box shows: `interests.join(" ")`. */
  function Shown(interests: seq<string>): string {
    Join(interests, " ")
  }

  /** Only the first and the last piece of a split can be empty. */
  predicate InteriorNonEmpty(tokens: seq<string>) {
    forall k :: 0 < k < |tokens| - 1 ==> tokens[k] != []
  }

  /** No piece of a split holds white space. */
  lemma {:induction false} SplitWsNoSpace(s: string)
    ensures forall k :: 0 <= k < |SplitWs(s)| ==> NoSpace(SplitWs(s)[k])
  {
    if s != [] {
      SplitWsNoSpace(s[1..]);
      var r := SplitWs(s[1..]);
      if !IsSpace(s[0]) {
        assert NoSpace(r[0]);
        assert NoSpace([s[0]] + r[0]);
      }
    }
  }

  /** None but the first and the last piece of a split is empty, and the
      first is not empty when the text does not start with white space. */
  lemma {:induction false} SplitWsShape(s: string)
    ensures InteriorNonEmpty(SplitWs(s))
    ensures s != [] && !IsSpace(s[0]) ==> SplitWs(s)[0] != []
  {
    if s != [] {
      SplitWsShape(s[1..]);
    }
  }

  /** Text holding white space splits into at least two pieces. */
  lemma {:induction false} SplitWsSeveral(s: string, k: int)
    requires 0 <= k < |s| && IsSpace(s[k])
    ensures |SplitWs(s)| >= 2
  {
    if k > 0 {
      SplitWsSeveral(s[1..], k - 1);
    } else if |s| > 1 && IsSpace(s[1]) {
      SplitWsSeveral(s[1..], 0);
    }
  }

  /** White space at the start gives an empty first piece. */
  lemma {:induction false} SplitWsStartsEmpty(s: string)
    requires s != [] && IsSpace(s[0])
    ensures SplitWs(s)[0] == []
  {
    if |s| > 1 && IsSpace(s[1]) {
      SplitWsStartsEmpty(s[1..]);
    }
  }

  /** White space at the end gives an empty last piece. */
  lemma {:induction false} SplitWsEndsEmpty(s: string)
    requires s != [] && IsSpace(s[|s| - 1])
    ensures SplitWs(s)[|SplitWs(s)| - 1] == []
  {
    if |s| > 1 {
      assert s[1..][|s| - 2] == s[|s| - 1];
      SplitWsEndsEmpty(s[1..]);
      SplitWsSeveral(s[1..], |s| - 2);
    }
  }

  /** A word without white space in front of text that is empty or starts
      with white space becomes the front of the first piece. */
  lemma {:induction false} SplitWsWord(t: string, rest: string)
    requires NoSpace(t)
    requires rest != [] ==> IsSpace(rest[0])
    ensures var r := SplitWs(rest);
      SplitWs(t + rest) == [t + r[0]] + r[1..]
  {
    var r := SplitWs(rest);
    if t == [] {
      assert t + rest == rest;
      assert t + r[0] == r[0];
      assert [t + r[0]] + r[1..] == r;
    } else {
      assert NoSpace(t[1..]);
      SplitWsWord(t[1..], rest);
      assert (t + rest)[1..] == t[1..] + rest;
      assert [t[0]] + (t[1..] + r[0]) == t + r[0];
    }
  }

  /** Splitting pieces joined with single spaces gives the pieces back, as
      long as they have no white space and only the first or the last is
      empty. */
  lemma {:induction false} SplitWsJoin(tokens: seq<string>)
    requires |tokens| >= 1
    requires forall k :: 0 <= k < |tokens| ==> NoSpace(tokens[k])
    requires InteriorNonEmpty(tokens)
    ensures SplitWs(Join(tokens, " ")) == tokens
  {
    var head := tokens[0];
    if |tokens| == 1 {
      assert Join(tokens, " ") == head;
      SplitWsWord(head, []);
      assert head + [] == head;
    } else {
      var tail := tokens[1..];
      var joined := Join(tail, " ");
      assert Join(tokens, " ") == head + (" " + joined);
      assert joined == [] || !IsSpace(joined[0]) by {
        if |tail| > 1 {
          assert joined == tail[0] + " " + Join(tail[1..], " ");
          assert joined[0] == tail[0][0];
        } else {
          assert joined == tail[0];
        }
      }
      assert SplitWs(" " + joined) == [[]] + SplitWs(joined) by {
        assert (" " + joined)[1..] == joined;
      }
      SplitWsWord(head, " " + joined);
      assert head + [] == head;
      SplitWsJoin(tail);
      assert tokens == [head] + tail;
    }
  }

  /** Every interest is a piece of the split, upper-cased: it has no white
      space and no lower-case letter. */
  lemma InterestsAreUpperPieces(value: string)
    ensures var r := Interests(value);
      && (forall k :: 0 <= k < |r| ==> r[k] == ToUpper(SplitWs(value)[k]))
      && (forall k :: 0 <= k < |r| ==> NoSpace(r[k]) && NoLower(r[k]))
  {
    var pieces := SplitWs(value);
    SplitWsNoSpace(value);
    forall k | 0 <= k < |pieces|
      ensures Interests(value)[k] == ToUpper(pieces[k])
      ensures NoSpace(Interests(value)[k]) && NoLower(Interests(value)[k])
    {
      var p := pieces[k];
      assert p == [] || (!IsSpace(p[0]) && !IsSpace(p[|p| - 1]));
      TrimNoop(p);
      ToUpperProperties(p);
    }
  }

  /** White space at the start of the box gives an empty first interest, and
      at the end an empty last one. */
  lemma EdgeSpaceGivesEmptyInterest(value: string)
    ensures value != [] && IsSpace(value[0]) ==> Interests(value)[0] == []
    ensures value != [] && IsSpace(value[|value| - 1]) ==> Interests(value)[|Interests(value)| - 1] == []
  {
    var pieces := SplitWs(value);
    assert ToUpper(Trim([])) == [];
    if value != [] && IsSpace(value[0]) {
      SplitWsStartsEmpty(value);
      assert Interests(value)[0] == ToUpper(Trim(pieces[0]));
    }
    if value != [] && IsSpace(value[|value| - 1]) {
      SplitWsEndsEmpty(value);
      var last := |pieces| - 1;
      assert Interests(value)[last] == ToUpper(Trim(pieces[last]));
    }
  }

  /** What the box shows reads back as the same interests: typing nothing
      more leaves them as they are. */
  lemma ShownReadsBack(value: string)
    ensures Interests(Shown(Interests(value))) == Interests(value)
  {
    var r := Interests(value);
    var pieces := SplitWs(value);
    InterestsAreUpperPieces(value);
    assert SplitWs(Shown(r)) == r by {
      SplitWsShape(value);
      assert InteriorNonEmpty(r) by {
        forall k | 0 < k < |r| - 1 ensures r[k] != [] {
          assert |r[k]| == |pieces[k]|;
        }
      }
      SplitWsJoin(r);
    }
    var again := Interests(Shown(r));
    assert |again| == |r|;
    forall k | 0 <= k < |r| ensures again[k] == r[k] {
      InterestsAreUpperPieces(Shown(r));
      ToUpperProperties(pieces[k]);
    }
  }

  /** The page's state: the interests. */
  class Summary {
    var interests: seq<string>

    constructor()
      ensures interests == []
    {
      interests := [];
    }

    /** `handle_change`: replaces the interests with the typed ones. */
    method HandleChange(value: string)
      modifies this
      ensures interests == Interests(value)
    {
      var pieces := SplitWs(value);
      var trimmed := seq(|pieces|, k requires 0 <= k < |pieces| => Trim(pieces[k]));
      interests := seq(|trimmed|, k requires 0 <= k < |trimmed| => ToUpper(trimmed[k]));
    }
  }

  // ---------------------------------------------------------------------------
  // get_contrast: parseInt(background, 16) > 0xffffff / 2
  // ---------------------------------------------------------------------------

  predicate IsHexDigit(c: char) {
    '0' <= c <= '9' || 'a' <= c <= 'f' || 'A' <= c <= 'F'
  }

  /** The value of a hexadecimal digit (only ever asked of one): the digits
      `0`-`9` count from 0, and `a`-`f` and `A`-`F` alike count from 10. */
  function HexDigitValue(c: char): (v: nat)
    ensures v < 16
    ensures '0' <= c <= '9' ==> v == c as int - '0' as int
    ensures 'a' <= c <= 'f' ==> v == c as int - 'a' as int + 10
    ensures 'A' <= c <= 'F' ==> v == c as int - 'A' as int + 10
  {
    if '0' <= c <= '9' then c as int - '0' as int
    else if 'a' <= c <= 'f' then c as int - 'a' as int + 10
    else if 'A' <= c <= 'F' then c as int - 'A' as int + 10
    else 0
  }

  /** The number of hexadecimal digits `s` starts with. */
  function HexRun(s: string): (n: nat)
    ensures n <= |s|
  {
    if s != [] && IsHexDigit(s[0]) then 1 + HexRun(s[1..]) else 0
  }

  /** `HexRun` counts the longest run of hexadecimal digits at the front. */
  lemma {:induction false} HexRunSpec(s: string)
    ensures forall k :: 0 <= k < HexRun(s) ==> IsHexDigit(s[k])
    ensures HexRun(s) < |s| ==> !IsHexDigit(s[HexRun(s)])
  {
    if s != [] && IsHexDigit(s[0]) {
      HexRunSpec(s[1..]);
    }
  }

  /** The number written by a string of hexadecimal digits. */
  function HexValue(s: string): nat
  {
    if s == [] then 0 else HexValue(s[..|s| - 1]) * 16 + HexDigitValue(s[|s| - 1])
  }

  /** The text after an optional sign. */
  function DropSign(t: string): string {
    if t != [] && (t[0] == '-' || t[0] == '+') then t[1..] else t
  }

  /** The text after an optional `0x` or `0X`. */
  function DropHexPrefix(u: string): string {
    if |u| >= 2 && u[0] == '0' && (u[1] == 'x' || u[1] == 'X') then u[2..] else u
  }

  /** JavaScript `parseInt(s, 16)`: leading white space, an optional sign, an
      optional `0x`, then the longest run of hexadecimal digits; no digit
      gives `NaN` (here `None`). */
  function ParseHex(s: string): Option<int> {
    var t := TrimStart(s);
    var w := DropHexPrefix(DropSign(t));
    var n := HexRun(w);
    if n == 0 then None
    else
      var v: int := HexValue(w[..n]);
      Some(if t != [] && t[0] == '-' then -v else v)
  }

  const Dark := "#212121"
  const Light := "#f5f5f5"

  /** `get_contrast(background)`: a dark font on a bright background. The
      comparison with `NaN` is false, so an unreadable colour gets the light
      font. */
  function Contrast(background: string): string {
    match ParseHex(background)
    case Some(v) => if 2 * v > 0xFF_FFFF then Dark else Light
    case None => Light
  }

  function HexChar(d: nat): char
    requires d < 16
  {
    "0123456789abcdef"[d]
  }

  /** `n.toString(16)`: lower-case hexadecimal digits, no padding. */
  function ToHex(n: nat): (r: string)
    ensures |r| >= 1
    ensures forall k :: 0 <= k < |r| ==> IsHexDigit(r[k])
    decreases n
  {
    if n < 16 then [HexChar(n)] else ToHex(n / 16) + [HexChar(n % 16)]
  }

  lemma {:induction false} HexValueToHex(n: nat)
    ensures HexValue(ToHex(n)) == n
    decreases n
  {
    var s := ToHex(n);
    if n >= 16 {
      HexValueToHex(n / 16);
      assert s[..|s| - 1] == ToHex(n / 16);
    } else {
      assert s[..0] == [];
    }
    var d := if n < 16 then n else n % 16;
    assert HexDigitValue(HexChar(d)) == d;
  }

  lemma {:induction false} HexRunAll(s: string)
    requires forall k :: 0 <= k < |s| ==> IsHexDigit(s[k])
    ensures HexRun(s) == |s|
  {
    if s != [] {
      HexRunAll(s[1..]);
    }
  }

  lemma TrimStartNoop(s: string)
    requires s == [] || !IsSpace(s[0])
    ensures TrimStart(s) == s
  {
  }

  /** A string of hexadecimal digits is read as the number it writes. */
  lemma ParseHexDigits(s: string)
    requires s != [] && HexRun(s) == |s|
    ensures ParseHex(s) == Some(HexValue(s))
  {
    assert |s| >= 2 ==> IsHexDigit(s[1]) by {
      assert HexRun(s[1..]) == |s| - 1;
    }
    HexStartNoop(s);
    ParseHexPlain(s);
  }

  /** A string starting with a digit has no white space, sign or `0x` to skip. */
  lemma HexStartNoop(s: string)
    requires s != [] && IsHexDigit(s[0]) && (|s| >= 2 ==> IsHexDigit(s[1]))
    ensures TrimStart(s) == s && DropSign(s) == s && DropHexPrefix(s) == s && s[0] != '-'
  {
    HexStartNoSpace(s);
    HexStartNoSign(s);
    HexStartNoPrefix(s);
  }

  lemma HexStartNoSpace(s: string)
    requires s != [] && IsHexDigit(s[0])
    ensures TrimStart(s) == s
  {
  }

  lemma HexStartNoSign(s: string)
    requires s != [] && IsHexDigit(s[0])
    ensures DropSign(s) == s
  {
  }

  lemma HexStartNoPrefix(s: string)
    requires s != [] && IsHexDigit(s[0]) && (|s| >= 2 ==> IsHexDigit(s[1]))
    ensures DropHexPrefix(s) == s
  {
  }

  lemma ParseHexPlain(s: string)
    requires s != [] && s[0] != '-'
    requires TrimStart(s) == s && DropHexPrefix(DropSign(s)) == s && HexRun(s) == |s|
    ensures ParseHex(s) == Some(HexValue(s))
  {
    assert s[..|s|] == s;
  }

  /** A colour written by `toString(16)` is read back as its number. */
  lemma ParseHexToHex(n: nat)
    ensures ParseHex(ToHex(n)) == Some(n)
  {
    HexRunAll(ToHex(n));
    ParseHexDigits(ToHex(n));
    HexValueToHex(n);
  }

  /** The font for a generated background: dark exactly when the colour's
      number is above half of 0xffffff. */
  lemma ContrastOfGenerated(n: nat)
    ensures Contrast(ToHex(n)) == if 2 * n > 0xFF_FFFF then Dark else Light
  {
    ParseHexToHex(n);
  }

  /** `parseInt(_, 16)` gives `NaN` exactly when no hexadecimal digit follows
      the skipped white space, sign and `0x`; the comparison with `NaN` is
      false, so such a background gets the light font. */
  lemma ContrastOfUnreadable(background: string)
    ensures ParseHex(background).None? <==> HexRun(DropHexPrefix(DropSign(TrimStart(background)))) == 0
    ensures ParseHex(background).None? ==> Contrast(background) == Light
  {
  }

  /** The whole rule: the dark font exactly when the background reads as a
      number above half of 0xffffff, the light font otherwise. */
  lemma ContrastRule(background: string)
    ensures Contrast(background) == Dark <==>
      ParseHex(background).Some? && 2 * ParseHex(background).value > 0xFF_FFFF
    ensures Contrast(background) == Light <==> !(Contrast(background) == Dark)
  {
    assert Dark != Light by {
      assert Dark[1] != Light[1];
    }
  }

  /** Inputs that start like a number but carry no digit are unreadable. */
  lemma UnreadablePrefixOnly()
    ensures ParseHex("0xzz").None?
  {
    var s := "0xzz";
    assert TrimStart(s) == s by { assert !IsSpace(s[0]); }
    assert DropSign(s) == s;
    assert DropHexPrefix(s) == s[2..];
    assert HexRun(s[2..]) == 0 by { assert !IsHexDigit(s[2]); }
  }

  lemma UnreadableSignLetter()
    ensures ParseHex("-g").None?
  {
    var s := "-g";
    assert TrimStart(s) == s by { assert !IsSpace(s[0]); }
    assert DropSign(s) == s[1..];
    assert DropHexPrefix(s[1..]) == s[1..];
    assert HexRun(s[1..]) == 0 by { assert !IsHexDigit(s[1]); }
  }

  /** A lone sign, `"+"` or `"-"`, is unreadable. */
  lemma UnreadableSignOnly(sign: char)
    requires sign == '+' || sign == '-'
    ensures ParseHex([sign]).None?
  {
    var s := [sign];
    var w := DropHexPrefix(DropSign(TrimStart(s)));
    assert TrimStart(s) == s by { assert !IsSpace(s[0]); }
    assert |DropSign(s)| == 0;
    assert |w| == 0;
    assert HexRun(w) == 0;
  }

  // ---------------------------------------------------------------------------
  // highlights: Object.fromEntries(map(interests, i => [i, {...}]))
  // ---------------------------------------------------------------------------

  datatype Highlight = Highlight(background: string, font: string)

  /** The highlight of an interest whose random colour number is `n`. */
  function HighlightOf(n: nat): Highlight {
    var background := ToHex(n);
    Highlight(background, Contrast(background))
  }

  /** `Object.fromEntries` over the first `n` pairs `(keys[k], values[k])`:
      a later pair with the same key replaces an earlier one. */
  function FromEntries(keys: seq<string>, values: seq<Highlight>, n: nat): map<string, Highlight>
    requires |values| == |keys| && n <= |keys|
  {
    if n == 0 then map[]
    else FromEntries(keys, values, n - 1)[keys[n - 1] := values[n - 1]]
  }

  /** The keys are exactly those among the first `n`. */
  lemma {:induction false} FromEntriesKeys(keys: seq<string>, values: seq<Highlight>, n: nat)
    requires |values| == |keys| && n <= |keys|
    ensures forall key :: key in FromEntries(keys, values, n) <==> key in keys[..n]
  {
    if n > 0 {
      FromEntriesKeys(keys, values, n - 1);
      assert keys[..n] == keys[..n - 1] + [keys[n - 1]];
    }
  }

  /** A key that does not come again before `n` holds its own value. */
  lemma {:induction false} FromEntriesLast(keys: seq<string>, values: seq<Highlight>, n: nat, k: nat)
    requires |values| == |keys| && k < n <= |keys|
    requires forall j :: k < j < n ==> keys[j] != keys[k]
    ensures keys[k] in FromEntries(keys, values, n)
    ensures FromEntries(keys, values, n)[keys[k]] == values[k]
  {
    var before := FromEntries(keys, values, n - 1);
    assert FromEntries(keys, values, n) == before[keys[n - 1] := values[n - 1]];
    if k < n - 1 {
      FromEntriesLast(keys, values, n - 1, k);
      assert keys[n - 1] != keys[k];
    }
  }

  /** `highlights`: one entry per interest, `colours[k]` standing for the
      random number drawn for the `k`-th one. */
  function Highlights(interests: seq<string>, colours: seq<nat>): map<string, Highlight>
    requires |colours| == |interests|
  {
    var entries := seq(|colours|, k requires 0 <= k < |colours| => HighlightOf(colours[k]));
    FromEntries(interests, entries, |interests|)
  }

  /** The keys of `highlights` are exactly the distinct interests; a key holds
      the highlight made for its last occurrence, and every font contrasts
      with its background. */
  lemma HighlightsSpec(interests: seq<string>, colours: seq<nat>)
    requires |colours| == |interests|
    ensures var h := Highlights(interests, colours);
      && (forall key :: key in h <==> key in interests)
      && (forall k :: 0 <= k < |interests| && (forall j :: k < j < |interests| ==> interests[j] != interests[k]) ==>
            h[interests[k]] == HighlightOf(colours[k]))
      && (forall key :: key in h ==> h[key].font == Contrast(h[key].background))
  {
    var entries := seq(|colours|, k requires 0 <= k < |colours| => HighlightOf(colours[k]));
    var h := Highlights(interests, colours);
    assert h == FromEntries(interests, entries, |interests|);
    FromEntriesKeys(interests, entries, |interests|);
    assert interests[..|interests|] == interests;
    forall k | 0 <= k < |interests| && (forall j :: k < j < |interests| ==> interests[j] != interests[k])
      ensures h[interests[k]] == HighlightOf(colours[k])
    {
      FromEntriesLast(interests, entries, |interests|, k);
    }
    forall key | key in h ensures h[key].font == Contrast(h[key].background) {
      var last := LastOf(interests, key);
      FromEntriesLast(interests, entries, |interests|, last);
    }
  }

  /** The last position of `x` in `s`. */
  function LastOf(s: seq<string>, x: string): (r: int)
    requires x in s
    ensures 0 <= r < |s| && s[r] == x
    ensures forall j :: r < j < |s| ==> s[j] != x
  {
    if s[|s| - 1] == x then |s| - 1
    else
      assert x in s[..|s| - 1] by {
        var k :| 0 <= k < |s| && s[k] == x;
        assert s[..|s| - 1][k] == x;
      }
      LastOf(s[..|s| - 1], x)
  }
}
