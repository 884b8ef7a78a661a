/**
 * The presentation helpers of src/App.jsx: the alignment class pickers,
 * the absolute-position style builder and the colour part of `hexToRgba`.
 */
module Styles {
  import opened JsRuntime

  // ---------------------------------------------------------------------
  // Alignment classes

  /** `getTextAlignClass`: a `switch` with strict equality, so only the
      strings "left" and "right" pick a side; anything else, including a
      missing value, centres. */
  function TextAlignClass(align: JsValue): (cls: string)
    ensures cls == "text-left" <==> align == Str("left")
    ensures cls == "text-right" <==> align == Str("right")
    ensures cls == "text-center" <==> align != Str("left") && align != Str("right")
  {
    if align == Str("left") then "text-left"
    else if align == Str("right") then "text-right"
    else "text-center"
  }

  /** `getChoicesAlignmentClass`, the same decision for the button column. */
  function ChoicesAlignmentClass(alignment: JsValue): (cls: string)
    ensures cls == "items-start" <==> alignment == Str("left")
    ensures cls == "items-end" <==> alignment == Str("right")
    ensures cls == "items-center" <==> alignment != Str("left") && alignment != Str("right")
  {
    if alignment == Str("left") then "items-start"
    else if alignment == Str("right") then "items-end"
    else "items-center"
  }

  // ---------------------------------------------------------------------
  // Position styles

  /** `s.includes(sub)`. */
  predicate Contains(s: string, sub: string)
    decreases |s|
  {
    |sub| <= |s| && (s[..|sub|] == sub || (s != [] && Contains(s[1..], sub)))
  }

  /** `sub` occurs in `s` starting at index `i`. */
  predicate OccursAt(s: string, sub: string, i: int) {
    0 <= i <= |s| - |sub| && s[i..i + |sub|] == sub
  }

  lemma {:induction false} OccursContains(s: string, sub: string, i: int)
    requires OccursAt(s, sub, i)
    ensures Contains(s, sub)
    decreases i
  {
    if i > 0 {
      assert s[1..][i - 1..i - 1 + |sub|] == s[i..i + |sub|];
      OccursContains(s[1..], sub, i - 1);
    } else {
      assert s[..|sub|] == sub;
    }
  }

  lemma {:induction false} ContainsOccurs(s: string, sub: string) returns (i: int)
    requires Contains(s, sub)
    ensures OccursAt(s, sub, i)
    decreases |s|
  {
    if s[..|sub|] == sub {
      i := 0;
    } else {
      var j := ContainsOccurs(s[1..], sub);
      assert s[1..][j..j + |sub|] == s[j + 1..j + 1 + |sub|];
      i := j + 1;
    }
  }

  /** `includes` holds exactly when `sub` occurs at some index. */
  lemma ContainsIff(s: string, sub: string)
    ensures Contains(s, sub) <==> exists i :: OccursAt(s, sub, i)
  {
    if Contains(s, sub) {
      var i := ContainsOccurs(s, sub);
    }
    if exists i :: OccursAt(s, sub, i) {
      var i :| OccursAt(s, sub, i);
      OccursContains(s, sub, i);
    }
  }

  /** A string that lacks one of the characters of `sub` does not contain it. */
  lemma MissingCharNotContained(s: string, sub: string, c: char)
    requires c in sub && c !in s
    ensures !Contains(s, sub)
  {
    ContainsIff(s, sub);
  }

  lemma SuffixContained(s: string, sub: string)
    requires |sub| <= |s| && s[|s| - |sub|..] == sub
    ensures Contains(s, sub)
  {
    ContainsIff(s, sub);
    assert OccursAt(s, sub, |s| - |sub|);
  }

  /** One component of `translate(x, y)`: "-50%" centres the box on its
      anchor, "0" leaves it at the anchor. */
  datatype Offset = Centre | Zero

  datatype Transform = Translate(x: Offset, y: Offset)

  /** The style object; `position` is always "absolute" and is not kept. */
  datatype PositionStyles = PositionStyles(
    top: string, left: string, bottom: string, right: string, transform: Transform)

  const Margin := "2rem"
  const Half := "50%"
  const Auto := "auto"
  const DefaultPosition := "center-center"

  /** `transform.replace('-50%', '0')`: the first centred component, reading
      left to right, becomes "0". */
  function ZeroFirstCentre(t: Transform): (r: Transform)
    ensures t.x == Centre ==> r == t.(x := Zero)
    ensures t.x == Zero && t.y == Centre ==> r == t.(y := Zero)
    ensures t == Translate(Zero, Zero) ==> r == t
  {
    if t.x == Centre then t.(x := Zero)
    else if t.y == Centre then t.(y := Zero)
    else t
  }

  /** What the style builder computes, stated per property from which side
      words were found: a side named is pinned at the margin, "bottom" wins
      over "top" and "right" over "left", and an axis is centred by the
      transform only when nothing pins it. */
  function PositionFromWords(top: bool, bottom: bool, left: bool, right: bool): PositionStyles {
    PositionStyles(
      if bottom then Auto else if top then Margin else Half,
      if right then Auto else if left then Margin else Half,
      if bottom then Margin else Auto,
      if right then Margin else Auto,
      Translate(if left || right then Zero else Centre,
                if top || bottom || (left && right) then Zero else Centre))
  }

  /** The styles for a position string, where `includes` is a substring test. */
  function PositionSpec(p: string): PositionStyles {
    PositionFromWords(Contains(p, "top"), Contains(p, "bottom"), Contains(p, "left"), Contains(p, "right"))
  }

  /** `positionString.includes(word)` for the values that have an `includes`
      method: a substring test on a string, a strict membership test on an
      array. */
  predicate Includes(v: JsValue, word: string)
    requires v.Str? || v.Arr?
  {
    if v.Str? then Contains(v.s, word) else Str(word) in v.elems
  }

  /** The whole of `getPositionStyles` on the raw cell: undefined takes the
      default "center-center"; a string or an array goes through the side
      tests (no array equals a named position, so the final reassignments
      only apply to strings, where they change nothing); null, a boolean, a
      number or an object has no `includes` method and throws (None). */
  function PositionFor(v: JsValue): (r: Option<PositionStyles>)
    ensures r.None? <==> v.Null? || v.Bool? || v.Num? || v.Obj?
    ensures v.Undefined? ==> r == Some(PositionSpec(DefaultPosition))
    ensures v.Str? ==> r == Some(PositionSpec(v.s))
  {
    match v
    case Undefined => Some(PositionSpec(DefaultPosition))
    case Str(s) => Some(PositionSpec(s))
    case Arr(es) =>
      Some(PositionFromWords(Str("top") in es, Str("bottom") in es, Str("left") in es, Str("right") in es))
    case _ => None
  }

  // The nine named positions, and the transform the source writes for each
  // at the end: the per-property rules already give it, so the final
  // reassignments change nothing.

  lemma PositionTopCenter(p: string)
    requires p == "top-center"
    ensures PositionSpec(p) == PositionStyles(Margin, Half, Auto, Auto, Translate(Centre, Zero))
  {
    assert Contains(p, "top") by { PrefixContained(p, "top"); }
    assert !Contains(p, "bottom") by { MissingCharNotContained(p, "bottom", 'b'); }
    assert !Contains(p, "left") by { MissingCharNotContained(p, "left", 'l'); }
    assert !Contains(p, "right") by { MissingCharNotContained(p, "right", 'g'); }
  }

  lemma PositionBottomCenter(p: string)
    requires p == "bottom-center"
    ensures PositionSpec(p) == PositionStyles(Auto, Half, Margin, Auto, Translate(Centre, Zero))
  {
    assert !Contains(p, "top") by { MissingCharNotContained(p, "top", 'p'); }
    assert Contains(p, "bottom") by { PrefixContained(p, "bottom"); }
    assert !Contains(p, "left") by { MissingCharNotContained(p, "left", 'l'); }
    assert !Contains(p, "right") by { MissingCharNotContained(p, "right", 'g'); }
  }

  lemma PositionCenterLeft(p: string)
    requires p == "center-left"
    ensures PositionSpec(p) == PositionStyles(Half, Margin, Auto, Auto, Translate(Zero, Centre))
  {
    assert !Contains(p, "top") by { MissingCharNotContained(p, "top", 'p'); }
    assert !Contains(p, "bottom") by { MissingCharNotContained(p, "bottom", 'b'); }
    assert Contains(p, "left") by { SuffixContained(p, "left"); }
    assert !Contains(p, "right") by { MissingCharNotContained(p, "right", 'g'); }
  }

  lemma PositionCenterRight(p: string)
    requires p == "center-right"
    ensures PositionSpec(p) == PositionStyles(Half, Auto, Auto, Margin, Translate(Zero, Centre))
  {
    assert !Contains(p, "top") by { MissingCharNotContained(p, "top", 'p'); }
    assert !Contains(p, "bottom") by { MissingCharNotContained(p, "bottom", 'b'); }
    assert !Contains(p, "left") by { MissingCharNotContained(p, "left", 'l'); }
    assert Contains(p, "right") by { SuffixContained(p, "right"); }
  }

  lemma PositionCenterCenter(p: string)
    requires p == "center-center"
    ensures PositionSpec(p) == PositionStyles(Half, Half, Auto, Auto, Translate(Centre, Centre))
  {
    assert !Contains(p, "top") by { MissingCharNotContained(p, "top", 'p'); }
    assert !Contains(p, "bottom") by { MissingCharNotContained(p, "bottom", 'b'); }
    assert !Contains(p, "left") by { MissingCharNotContained(p, "left", 'l'); }
    assert !Contains(p, "right") by { MissingCharNotContained(p, "right", 'g'); }
  }

  lemma PositionTopLeft(p: string)
    requires p == "top-left"
    ensures PositionSpec(p) == PositionStyles(Margin, Margin, Auto, Auto, Translate(Zero, Zero))
  {
    assert Contains(p, "top") by { PrefixContained(p, "top"); }
    assert !Contains(p, "bottom") by { MissingCharNotContained(p, "bottom", 'b'); }
    assert Contains(p, "left") by { SuffixContained(p, "left"); }
    assert !Contains(p, "right") by { MissingCharNotContained(p, "right", 'g'); }
  }

  lemma PositionTopRight(p: string)
    requires p == "top-right"
    ensures PositionSpec(p) == PositionStyles(Margin, Auto, Auto, Margin, Translate(Zero, Zero))
  {
    assert Contains(p, "top") by { PrefixContained(p, "top"); }
    assert !Contains(p, "bottom") by { MissingCharNotContained(p, "bottom", 'b'); }
    assert !Contains(p, "left") by { MissingCharNotContained(p, "left", 'l'); }
    assert Contains(p, "right") by { SuffixContained(p, "right"); }
  }

  lemma PositionBottomLeft(p: string)
    requires p == "bottom-left"
    ensures PositionSpec(p) == PositionStyles(Auto, Margin, Margin, Auto, Translate(Zero, Zero))
  {
    assert !Contains(p, "top") by { MissingCharNotContained(p, "top", 'p'); }
    assert Contains(p, "bottom") by { PrefixContained(p, "bottom"); }
    assert Contains(p, "left") by { SuffixContained(p, "left"); }
    assert !Contains(p, "right") by { MissingCharNotContained(p, "right", 'g'); }
  }

  lemma PositionBottomRight(p: string)
    requires p == "bottom-right"
    ensures PositionSpec(p) == PositionStyles(Auto, Auto, Margin, Margin, Translate(Zero, Zero))
  {
    assert !Contains(p, "top") by { MissingCharNotContained(p, "top", 'p'); }
    assert Contains(p, "bottom") by { PrefixContained(p, "bottom"); }
    assert !Contains(p, "left") by { MissingCharNotContained(p, "left", 'l'); }
    assert Contains(p, "right") by { SuffixContained(p, "right"); }
  }

  lemma PrefixContained(s: string, sub: string)
    requires |sub| <= |s| && s[..|sub|] == sub
    ensures Contains(s, sub)
  {
  }

  /** `getPositionStyles`: start centred, then let each side word found in
      the value update the style object in turn, then reassign the
      transform of the nine named positions. An undefined argument means
      "center-center"; a value without an `includes` method throws. */
  method GetPositionStyles(position: JsValue) returns (styles: Option<PositionStyles>)
    ensures styles == PositionFor(position)
  {
    if !(position.Undefined? || position.Str? || position.Arr?) {
      return None;
    }
    var p := if position.Undefined? then Str(DefaultPosition) else position;
    var s := ApplySideWords(p);
    s := ReassignNamedTransform(p, s);
    styles := Some(s);
  }

  /** The four side tests, each updating the style object in turn. */
  method ApplySideWords(p: JsValue) returns (s: PositionStyles)
    requires p.Str? || p.Arr?
    ensures s == PositionFromWords(Includes(p, "top"), Includes(p, "bottom"), Includes(p, "left"), Includes(p, "right"))
  {
    s := PositionStyles(Half, Half, Auto, Auto, Translate(Centre, Centre));
    if Includes(p, "top") {
      s := s.(top := Margin, transform := Translate(Centre, Zero));
    }
    if Includes(p, "bottom") {
      s := s.(top := Auto, bottom := Margin, transform := Translate(Centre, Zero));
    }
    if Includes(p, "left") {
      s := s.(left := Margin, transform := ZeroFirstCentre(s.transform));
    }
    if Includes(p, "right") {
      s := s.(left := Auto, right := Margin, transform := ZeroFirstCentre(s.transform));
    }
  }

  /** The strict-equality tests against the nine named positions, each
      rewriting the transform; on the styles the side tests produced every
      rewrite writes back the transform already there. */
  method ReassignNamedTransform(p: JsValue, s0: PositionStyles) returns (s: PositionStyles)
    requires p.Str? || p.Arr?
    requires s0 == PositionFromWords(Includes(p, "top"), Includes(p, "bottom"), Includes(p, "left"), Includes(p, "right"))
    ensures s == s0
  {
    s := s0;
    if p == Str("top-center") || p == Str("bottom-center") {
      if p.s == "top-center" { PositionTopCenter(p.s); } else { PositionBottomCenter(p.s); }
      s := s.(transform := Translate(Centre, Zero));
    }
    if p == Str("center-left") || p == Str("center-right") {
      if p.s == "center-left" { PositionCenterLeft(p.s); } else { PositionCenterRight(p.s); }
      s := s.(transform := Translate(Zero, Centre));
    }
    if p == Str("center-center") {
      PositionCenterCenter(p.s);
      s := s.(transform := Translate(Centre, Centre));
    }
    if p == Str("top-left") || p == Str("top-right") || p == Str("bottom-left") || p == Str("bottom-right") {
      if p.s == "top-left" {
        PositionTopLeft(p.s);
      } else if p.s == "top-right" {
        PositionTopRight(p.s);
      } else if p.s == "bottom-left" {
        PositionBottomLeft(p.s);
      } else {
        PositionBottomRight(p.s);
      }
      s := s.(transform := Translate(Zero, Zero));
    }
  }

  /** An array cell is read by membership, element by element:
      `["top", "left"]` pins the box to the top-left corner. */
  lemma ArrayPositionByMembership()
    ensures PositionFor(Arr([Str("top"), Str("left")]))
         == Some(PositionStyles(Margin, Margin, Auto, Auto, Translate(Zero, Zero)))
  {
    var es := [Str("top"), Str("left")];
    assert Str("top") in es && Str("left") in es;
    assert Str("bottom") !in es && Str("right") !in es;
  }

  /** No box is pinned to two opposite edges, and the horizontal transform
      centres exactly when `left` is "50%". */
  lemma PositionIsConsistent(v: JsValue)
    requires PositionFor(v).Some?
    ensures var s := PositionFor(v).value;
      && !(s.top == Margin && s.bottom == Margin)
      && !(s.left == Margin && s.right == Margin)
      && (s.transform.x == Centre <==> s.left == Half)
      && (s.transform.y == Centre ==> s.top == Half)
  {
  }

  /** The one position where an axis sits at "50%" without being centred
      on it: a string naming both "left" and "right" but neither "top" nor
      "bottom" is placed with its top edge at mid-height. */
  lemma LeftRightDropsVerticalCentring(p: string)
    requires Contains(p, "left") && Contains(p, "right")
    requires !Contains(p, "top") && !Contains(p, "bottom")
    ensures PositionSpec(p).top == Half && PositionSpec(p).transform.y == Zero
  {
  }

  // ---------------------------------------------------------------------
  // Colours

  /** The colour `hexToRgba` puts in front of the opacity. */
  datatype Colour = Rgb(r: int, g: int, b: int)

  const Black := Rgb(0, 0, 0)

  /** `String(hexInput || '')`: a falsy value becomes "", anything else goes
      through ToString, which may throw. */
  function ColourText(v: JsValue): (r: Option<string>)
    ensures v.Str? ==> r == Some(v.s)
    ensures v.Undefined? || v.Null? || v == Bool(false) || v == Num(0) ==> r == Some("")
  {
    if IsFalsy(v) then Some("")
    else ToStr(v)
  }

  predicate IsHex(s: string) {
    AllDigits(s, 16)
  }

  /** A bare run of six or three hex digits gets its "#". */
  function WithHash(h: string): (r: string)
    ensures |h| > 0 && h[0] == '#' ==> r == h
    ensures (|h| == 0 || h[0] != '#') && (|h| == 6 || |h| == 3) && IsHex(h) ==> r == "#" + h
  {
    if |h| > 0 && h[0] == '#' then h
    else if |h| == 6 && IsHex(h) then "#" + h
    else if |h| == 3 && IsHex(h) then "#" + h
    else h
  }

  /** The `isNaN` check: black unless all three channels parsed. */
  function FromChannels(r: IntOrNaN, g: IntOrNaN, b: IntOrNaN): (c: Colour)
    ensures r.NaN? || g.NaN? || b.NaN? ==> c == Black
    ensures r.Int? && g.Int? && b.Int? ==> c == Rgb(r.value, g.value, b.value)
  {
    if r.NaN? || g.NaN? || b.NaN? then Black else Rgb(r.value, g.value, b.value)
  }

  /** The colour part of `hexToRgba`, as written: the length alone picks
      the short or the long form (the character in front is not checked),
      and each channel is read with `parseInt(_, 16)`. */
  function HexToRgb(text: string): Colour {
    var hex := WithHash(Trim(text));
    if |hex| == 4 then
      FromChannels(ParseInt([hex[1], hex[1]], 16), ParseInt([hex[2], hex[2]], 16), ParseInt([hex[3], hex[3]], 16))
    else if |hex| == 7 then
      FromChannels(ParseInt(hex[1..3], 16), ParseInt(hex[3..5], 16), ParseInt(hex[5..7], 16))
    else Black
  }

  /** The colour `hexToRgba(hexInput)` computes from the raw argument:
      `String(hexInput || '')`, then the reading above. None when the
      conversion throws; any falsy argument is black. */
  function HexColour(hexInput: JsValue): (r: Option<Colour>)
    ensures r.None? <==> ColourText(hexInput).None?
    ensures hexInput.Str? ==> r == Some(HexToRgb(hexInput.s))
    ensures IsFalsy(hexInput) ==> r == Some(Black)
  {
    match ColourText(hexInput)
    case None => None
    case Some(text) => Some(HexToRgb(text))
  }

  /** The question's text colour, `hexToRgba(color || '#FFFFFF')`: a falsy
      cell stands for white, and the call throws exactly when converting a
      truthy cell to a string does. */
  function QuestionColour(color: JsValue): (r: Option<Colour>)
    ensures r.None? <==> !IsFalsy(color) && ToStr(color).None?
    ensures !IsFalsy(color) ==> r == HexColour(color)
  {
    HexColour(if IsFalsy(color) then Str("#FFFFFF") else color)
  }

  lemma HexIsNotWhitespace(c: char)
    requires IsDigit(c, 16) || c == '#'
    ensures !IsJsWhitespace(c)
  {
  }

  /** A hex string without white space around it is left as it is by
      `trim`. */
  lemma HexTrimmed(h: string)
    requires |h| > 0 && IsHex(h[1..]) && (h[0] == '#' || IsDigit(h[0], 16))
    ensures Trim(h) == h
  {
    HexIsNotWhitespace(h[0]);
    HexIsNotWhitespace(h[|h| - 1]);
    TrimNoop(h);
  }

  /** Six hex digits, with or without "#", give one byte per digit pair. */
  lemma SixDigitColour(d: string)
    requires |d| == 6 && IsHex(d)
    ensures var c := Rgb(16 * DigitValue(d[0]) + DigitValue(d[1]),
                         16 * DigitValue(d[2]) + DigitValue(d[3]),
                         16 * DigitValue(d[4]) + DigitValue(d[5]));
      HexToRgb(d) == c && HexToRgb("#" + d) == c
  {
    HexTrimmed(d);
    HexTrimmed("#" + d);
    assert ("#" + d)[1..] == d;
    var h := "#" + d;
    assert h[1..3] == [d[0], d[1]] && h[3..5] == [d[2], d[3]] && h[5..7] == [d[4], d[5]];
    ParseIntHexPair(d[0], d[1]);
    ParseIntHexPair(d[2], d[3]);
    ParseIntHexPair(d[4], d[5]);
  }

  /** Three hex digits, with or without "#", are doubled: each channel is 17
      times its digit. */
  lemma ThreeDigitColour(d: string)
    requires |d| == 3 && IsHex(d)
    ensures var c := Rgb(17 * DigitValue(d[0]), 17 * DigitValue(d[1]), 17 * DigitValue(d[2]));
      HexToRgb(d) == c && HexToRgb("#" + d) == c
  {
    HexTrimmed(d);
    HexTrimmed("#" + d);
    assert ("#" + d)[1..] == d;
    ParseIntHexPair(d[0], d[0]);
    ParseIntHexPair(d[1], d[1]);
    ParseIntHexPair(d[2], d[2]);
  }

  /** A trimmed text of any other length than 3, 4, 6 or 7 is black. */
  lemma OtherLengthsAreBlack(text: string)
    requires |Trim(text)| !in {3, 4, 6, 7}
    ensures HexToRgb(text) == Black
  {
  }

  /** "#FFFFFF" is white. */
  lemma WhiteHex(h: string)
    requires h == "#FFFFFF"
    ensures HexToRgb(h) == Rgb(255, 255, 255)
  {
    var d := h[1..];
    assert h == "#" + d;
    assert IsHex(d) && DigitValue(d[0]) == DigitValue(d[2]) == DigitValue(d[4]) == 15 by {
      forall i | 0 <= i < |d|
        ensures d[i] == 'F' && IsDigit(d[i], 16)
      {
        assert d[i] == h[i + 1];
      }
    }
    SixDigitColour(d);
  }

  /** A question without a colour is white. */
  lemma DefaultQuestionColourIsWhite(color: JsValue)
    requires IsFalsy(color)
    ensures QuestionColour(color) == Some(Rgb(255, 255, 255))
  {
    assert QuestionColour(color) == HexColour(Str("#FFFFFF"));
    WhiteHex("#FFFFFF");
  }

  /** `parseInt` on a digit followed by a non-digit reads the digit alone. */
  lemma ParseIntHexDigitThenJunk(d: char, junk: char)
    requires IsDigit(d, 16) && !IsDigit(junk, 16) && d != '0'
    ensures ParseInt([d, junk], 16) == Int(DigitValue(d))
  {
    var s := [d, junk];
    HexIsNotWhitespace(d);
    assert TrimStart(s) == s;
    assert !HasHexPrefix(s);
    assert DigitPrefix(s[1..], 16) == [];
    assert DigitPrefix(s, 16) == [d];
    assert [d][..0] == [];
    assert DigitsValue([d], 16) == DigitValue(d);
    assert ParseTrimmed(s, 16) == Int(DigitValue(d));
  }

  /** `parseInt("-1", 16)` is -1: the sign is read. */
  lemma ParseIntMinusOne()
    ensures ParseInt("-1", 16) == Int(-1)
  {
    assert TrimStart("-1") == "-1";
    assert "-1"[1..] == "1";
    assert DigitPrefix("1", 16) == "1";
    assert "1"[..0] == [];
  }

  /** As written, a seven-character colour passes the NaN check as soon as
      each pair starts with something `parseInt` can read: "#1g2g3g" gives
      (1, 2, 3) and "#-1-1-1" gives (-1, -1, -1), outside the byte range. */
  lemma MalformedColoursAccepted()
    ensures HexToRgb("#1g2g3g") == Rgb(1, 2, 3)
    ensures HexToRgb("#-1-1-1") == Rgb(-1, -1, -1)
  {
    NonHexDigitsAccepted();
    NegativeChannelsAccepted();
  }

  /** A letter that is not a hex digit ends each channel early. */
  lemma NonHexDigitsAccepted()
    ensures HexToRgb("#1g2g3g") == Rgb(1, 2, 3)
  {
    var h := "#1g2g3g";
    assert h[0] == '#' && h[6] == 'g';
    HexIsNotWhitespace('#');
    assert !IsJsWhitespace('g');
    TrimNoop(h);
    assert h[1..3] == ['1', 'g'] && h[3..5] == ['2', 'g'] && h[5..7] == ['3', 'g'];
    ParseIntHexDigitThenJunk('1', 'g');
    ParseIntHexDigitThenJunk('2', 'g');
    ParseIntHexDigitThenJunk('3', 'g');
  }

  /** A minus sign makes each channel negative. */
  lemma NegativeChannelsAccepted()
    ensures HexToRgb("#-1-1-1") == Rgb(-1, -1, -1)
  {
    var m := "#-1-1-1";
    assert m[0] == '#' && m[6] == '1';
    HexIsNotWhitespace('1');
    TrimNoop(m);
    assert m[1..3] == "-1";
    assert m[3..5] == "-1";
    assert m[5..7] == "-1";
    ParseIntMinusOne();
  }


  /** The evidently intended reading: only "#" followed by three or six hex
      digits (after trimming and adding a missing "#") is a colour; anything
      else is black. */
  function HexToRgbStrict(text: string): (c: Colour)
    ensures 0 <= c.r <= 255 && 0 <= c.g <= 255 && 0 <= c.b <= 255
  {
    var hex := WithHash(Trim(text));
    if |hex| == 4 && hex[0] == '#' && IsHex(hex[1..]) then
      ParseIntHexPair(hex[1], hex[1]);
      ParseIntHexPair(hex[2], hex[2]);
      ParseIntHexPair(hex[3], hex[3]);
      FromChannels(ParseInt([hex[1], hex[1]], 16), ParseInt([hex[2], hex[2]], 16), ParseInt([hex[3], hex[3]], 16))
    else if |hex| == 7 && hex[0] == '#' && IsHex(hex[1..]) then
      assert hex[1..3] == [hex[1], hex[2]] && hex[3..5] == [hex[3], hex[4]] && hex[5..7] == [hex[5], hex[6]];
      ParseIntHexPair(hex[1], hex[2]);
      ParseIntHexPair(hex[3], hex[4]);
      ParseIntHexPair(hex[5], hex[6]);
      FromChannels(ParseInt(hex[1..3], 16), ParseInt(hex[3..5], 16), ParseInt(hex[5..7], 16))
    else Black
  }

  /** The strict reading changes nothing for well-formed colours. */
  lemma StrictAgreesOnWellFormed(text: string)
    requires var hex := WithHash(Trim(text));
      (|hex| == 4 || |hex| == 7) && hex[0] == '#' && IsHex(hex[1..])
    ensures HexToRgbStrict(text) == HexToRgb(text)
  {
  }

  /** ... and turns the malformed ones black. */
  lemma StrictRejectsMalformed()
    ensures HexToRgbStrict("#1g2g3g") == Black
    ensures HexToRgbStrict("#-1-1-1") == Black
  {
    var h := "#1g2g3g";
    assert h[0] == '#' && h[6] == 'g';
    HexIsNotWhitespace('#');
    assert !IsJsWhitespace('g');
    TrimNoop(h);
    assert !IsDigit(h[1..][1], 16);
    var m := "#-1-1-1";
    assert m[0] == '#' && m[6] == '1';
    HexIsNotWhitespace('1');
    TrimNoop(m);
    assert !IsDigit(m[1..][0], 16);
  }
}
