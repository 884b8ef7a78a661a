/**
 * `parseChoices` (src/App.jsx): turns the `choices` cell of a scene row into
 * the list of choice objects the player shows as buttons. JSON decoding is a
 * parameter of the model, an arbitrary function from text to an optional
 * value, so every property below holds whatever the decoder does.
 */
module ChoiceParsing {
  import opened JsRuntime

  /** `JSON.parse`: None when it throws a SyntaxError. */
  type JsonParser = string -> Option<JsValue>

  /** The one error `parseChoices` raises. It wraps both a decoding failure
      and a TypeError inside the mapping, and quotes the raw cell. */
  datatype ChoicesError = ChoicesError(raw: string)

  /** What the `parsed.map` callback does with one decoded element. */
  datatype ChoiceOutcome = Throws | Dropped | Kept(choice: JsValue)

  predicate IsStrippedControl(c: char) {
    c == '\n' || c == '\r' || c == '\t'
  }

  /** `s.replace(/[\n\r\t]/g, '')`. */
  function RemoveControl(s: string): (r: string)
    ensures |r| <= |s|
    ensures forall i :: 0 <= i < |r| ==> !IsStrippedControl(r[i])
    ensures (forall i :: 0 <= i < |s| ==> !IsStrippedControl(s[i])) ==> r == s
  {
    if s == [] then []
    else (if IsStrippedControl(s[0]) then [] else [s[0]]) + RemoveControl(s[1..])
  }

  /** A single character is deleted exactly when it is a tab or a line
      break, and kept otherwise. */
  lemma RemoveControlChar(c: char)
    ensures RemoveControl([c]) == if IsStrippedControl(c) then [] else [c]
  {
    assert [c][1..] == [];
  }

  /** The replacement works character by character: cleaning a
      concatenation cleans each part and keeps them in order. With
      `RemoveControlChar` this fixes the result for every input. */
  lemma {:induction false} RemoveControlAppend(a: string, b: string)
    ensures RemoveControl(a + b) == RemoveControl(a) + RemoveControl(b)
  {
    if a != [] {
      var h := if IsStrippedControl(a[0]) then [] else [a[0]];
      assert RemoveControl(a + b) == h + RemoveControl(a[1..] + b) by {
        assert a + b != [] && (a + b)[0] == a[0] && (a + b)[1..] == a[1..] + b;
      }
      assert RemoveControl(a) == h + RemoveControl(a[1..]);
      RemoveControlAppend(a[1..], b);
    } else {
      assert a + b == b;
    }
  }

  /** The text handed to the decoder. */
  function Cleaned(s: string): string {
    Trim(RemoveControl(s))
  }

  /** Text with no tab or line break and no white space at either end
      reaches the decoder unchanged. */
  lemma CleanedKeepsPlainText(s: string)
    requires s != [] && !IsJsWhitespace(s[0]) && !IsJsWhitespace(s[|s| - 1])
    requires forall i :: 0 <= i < |s| ==> !IsStrippedControl(s[i])
    ensures Cleaned(s) == s && !IsBlank(s)
  {
    TrimNoop(s);
  }

  /** `{ ...choice, nextSceneId: id }`. */
  function WithNextSceneId(choice: JsValue, id: int): (r: JsValue)
    requires choice.Obj?
    ensures r.Obj? && r.fields.Keys == choice.fields.Keys + {"nextSceneId"}
    ensures r.fields["nextSceneId"] == Num(id)
    ensures forall k :: k in choice.fields && k != "nextSceneId" ==> r.fields[k] == choice.fields[k]
  {
    Obj(choice.fields["nextSceneId" := Num(id)])
  }

  /** A choice as the player needs it: an object whose `text` is a string
      and whose `nextSceneId` is a number. */
  predicate IsWellFormedChoice(c: JsValue) {
    c.Obj? && "text" in c.fields && c.fields["text"].Str?
    && "nextSceneId" in c.fields && c.fields["nextSceneId"].Num?
  }

  /** The `parsed.map` callback: `parseInt(choice.nextSceneId, 10)` throws on
      a nullish element or an unprintable id; the element is kept only when
      `text` is a string and the id is not NaN. */
  function NormaliseChoice(c: JsValue): (r: ChoiceOutcome)
    ensures r.Kept? ==> IsWellFormedChoice(r.choice)
  {
    if IsNullish(c) then Throws
    else match ParseIntValue(Property(c, "nextSceneId"))
      case None => Throws
      case Some(NaN) => Dropped
      case Some(Int(id)) =>
        if Property(c, "text").Str? then Kept(WithNextSceneId(c, id)) else Dropped
  }

  /** The callback throws exactly on a nullish element or an id that cannot
      be printed; it keeps exactly the elements with a string `text` and a
      non-NaN id, replacing the id by its integer and keeping every other
      field. */
  lemma NormaliseChoiceCases(c: JsValue)
    ensures NormaliseChoice(c).Throws? <==> IsNullish(c) || ToStr(Property(c, "nextSceneId")).None?
    ensures NormaliseChoice(c).Kept? <==>
      && !IsNullish(c)
      && Property(c, "text").Str?
      && ParseIntValue(Property(c, "nextSceneId")).Some?
      && ParseIntValue(Property(c, "nextSceneId")).value.Int?
    ensures NormaliseChoice(c).Kept? ==>
      && c.Obj?
      && NormaliseChoice(c).choice == WithNextSceneId(c, ParseIntValue(Property(c, "nextSceneId")).value.value)
  {
  }

  /** `parsed.map(callback)`: the callback's outcome for every element. */
  function ChoiceOutcomes(es: seq<JsValue>): (o: seq<ChoiceOutcome>)
    ensures |o| == |es|
    ensures forall i :: 0 <= i < |es| ==> o[i] == NormaliseChoice(es[i])
  {
    seq(|es|, i requires 0 <= i < |es| => NormaliseChoice(es[i]))
  }

  /** The mapped array, then `.filter(choice => choice !== null)`: None when
      the callback threw on some element (the exception leaves `map`). */
  function FilterKept(os: seq<ChoiceOutcome>): (r: Option<seq<JsValue>>)
    ensures r.Some? ==> |r.value| <= |os|
  {
    if os == [] then Some([])
    else if os[0].Throws? then None
    else
      var rest := FilterKept(os[1..]);
      if rest.None? then None
      else if os[0].Kept? then Some([os[0].choice] + rest.value)
      else rest
  }

  /** A kept value is the choice of some outcome. */
  lemma {:induction false} FilterKeptFrom(os: seq<ChoiceOutcome>)
    ensures FilterKept(os).Some? ==>
      forall k :: 0 <= k < |FilterKept(os).value| ==> Kept(FilterKept(os).value[k]) in os
  {
    if os != [] && !os[0].Throws? {
      FilterKeptFrom(os[1..]);
      var rest := FilterKept(os[1..]);
      if rest.Some? {
        assert forall x :: x in os[1..] ==> x in os;
      }
    }
  }

  function NormaliseAll(es: seq<JsValue>): (r: Option<seq<JsValue>>)
    ensures r.Some? ==> |r.value| <= |es|
    ensures r.Some? ==> forall k :: 0 <= k < |r.value| ==> IsWellFormedChoice(r.value[k])
  {
    var os := ChoiceOutcomes(es);
    FilterKeptFrom(os);
    FilterKept(os)
  }

  /** `parseChoices(choicesString)`. */
  function ParseChoices(v: JsValue, parse: JsonParser): (r: Result<seq<JsValue>, ChoicesError>)
    ensures IsNullish(v) ==> r == Ok([])
    ensures v.Arr? ==> r == Ok(v.elems)
    ensures !v.Arr? && !v.Str? ==> r == Ok([])
    ensures v.Str? && IsBlank(v.s) ==> r == Ok([])
    ensures v.Str? && !IsBlank(v.s) && parse(Cleaned(v.s)).None? ==> r == Err(ChoicesError(v.s))
    ensures v.Str? && !IsBlank(v.s) && parse(Cleaned(v.s)).Some? && !parse(Cleaned(v.s)).value.Arr?
      ==> r == Ok([])
    ensures r.Err? ==> v.Str? && r.error.raw == v.s
    ensures r.Ok? && v.Str? ==> forall k :: 0 <= k < |r.value| ==> IsWellFormedChoice(r.value[k])
  {
    if IsNullish(v) then Ok([])
    else if v.Arr? then Ok(v.elems)
    else if !v.Str? then Ok([])
    else
      TrimEmptyIffBlank(v.s);
      if Trim(v.s) == [] then Ok([])
      else match parse(Cleaned(v.s))
      case None => Err(ChoicesError(v.s))
      case Some(decoded) =>
        if !decoded.Arr? then Ok([])
        else match NormaliseAll(decoded.elems)
          case None => Err(ChoicesError(v.s))
          case Some(cs) => Ok(cs)
  }

  // ---------------------------------------------------------------------
  // The kept choices, index by index

  /** The indices, in increasing order, of the outcomes that keep a choice. */
  ghost function KeptIndicesFrom(os: seq<ChoiceOutcome>, from: nat): (idx: seq<nat>)
    requires from <= |os|
    ensures forall k :: 0 <= k < |idx| ==> from <= idx[k] < |os| && os[idx[k]].Kept?
    ensures forall k, l :: 0 <= k < l < |idx| ==> idx[k] < idx[l]
    decreases |os| - from
  {
    if from == |os| then []
    else (if os[from].Kept? then [from] else []) + KeptIndicesFrom(os, from + 1)
  }

  ghost function KeptIndices(es: seq<JsValue>): seq<nat> {
    KeptIndicesFrom(ChoiceOutcomes(es), 0)
  }

  lemma {:induction false} FilterKeptSelects(os: seq<ChoiceOutcome>, from: nat)
    requires from <= |os|
    requires forall i :: from <= i < |os| ==> !os[i].Throws?
    ensures FilterKept(os[from..]).Some?
    ensures var out, idx := FilterKept(os[from..]).value, KeptIndicesFrom(os, from);
      && |out| == |idx|
      && (forall k :: 0 <= k < |idx| ==> out[k] == os[idx[k]].choice)
      && (forall i :: from <= i < |os| ==> (os[i].Kept? <==> i in idx))
    decreases |os| - from
  {
    if from < |os| {
      FilterKeptSelects(os, from + 1);
      var tail := os[from..];
      assert tail[0] == os[from] && tail[1..] == os[from + 1..];
      var rest := FilterKept(os[from + 1..]).value;
      var restIdx := KeptIndicesFrom(os, from + 1);
      if os[from].Kept? {
        assert FilterKept(tail).value == [os[from].choice] + rest;
        assert KeptIndicesFrom(os, from) == [from] + restIdx;
      } else {
        assert FilterKept(tail).value == rest;
        assert KeptIndicesFrom(os, from) == restIdx;
      }
    }
  }

  lemma ParseChoicesOfArray(v: JsValue, parse: JsonParser, es: seq<JsValue>)
    requires v.Str? && !IsBlank(v.s) && parse(Cleaned(v.s)) == Some(Arr(es))
    ensures NormaliseAll(es).None? ==> ParseChoices(v, parse) == Err(ChoicesError(v.s))
    ensures NormaliseAll(es).Some? ==> ParseChoices(v, parse) == Ok(NormaliseAll(es).value)
  {
    TrimEmptyIffBlank(v.s);
  }

  /** For a cell that decodes to an array on whose elements nothing throws,
      the result is the subsequence, in the same order, of the elements with
      a string `text` and an integer-parsable `nextSceneId`, each with that
      id replaced by its integer. */
  lemma ParseChoicesKeepsValidInOrder(v: JsValue, parse: JsonParser, es: seq<JsValue>)
    requires v.Str? && !IsBlank(v.s) && parse(Cleaned(v.s)) == Some(Arr(es))
    requires forall i :: 0 <= i < |es| ==> !NormaliseChoice(es[i]).Throws?
    ensures ParseChoices(v, parse).Ok?
    ensures var out, idx := ParseChoices(v, parse).value, KeptIndices(es);
      && |out| == |idx|
      && (forall k :: 0 <= k < |idx| ==> idx[k] < |es| && out[k] == NormaliseChoice(es[idx[k]]).choice)
      && (forall k, l :: 0 <= k < l < |idx| ==> idx[k] < idx[l])
      && (forall i :: 0 <= i < |es| ==> (NormaliseChoice(es[i]).Kept? <==> i in idx))
  {
    ParseChoicesOfArray(v, parse, es);
    var os := ChoiceOutcomes(es);
    FilterKeptSelects(os, 0);
    assert os[0..] == os;
  }

  lemma {:induction false} FilterKeptThrows(os: seq<ChoiceOutcome>, i: nat)
    requires i < |os| && os[i].Throws?
    ensures FilterKept(os).None?
  {
    if i > 0 {
      FilterKeptThrows(os[1..], i - 1);
    }
  }

  /** One element the callback throws on (a `null` element, say) makes the
      whole cell fail, whatever the other elements are. */
  lemma ParseChoicesFailsOnBadElement(v: JsValue, parse: JsonParser, es: seq<JsValue>, i: nat)
    requires v.Str? && !IsBlank(v.s) && parse(Cleaned(v.s)) == Some(Arr(es))
    requires i < |es| && NormaliseChoice(es[i]).Throws?
    ensures ParseChoices(v, parse) == Err(ChoicesError(v.s))
  {
    ParseChoicesOfArray(v, parse, es);
    FilterKeptThrows(ChoiceOutcomes(es), i);
  }

  lemma KeptChoiceIsFixedPoint(c: JsValue)
    requires IsWellFormedChoice(c)
    ensures NormaliseChoice(c) == Kept(c)
  {
    var n := c.fields["nextSceneId"].n;
    ParseIntValueOfNum(n);
    assert c.fields["nextSceneId" := Num(n)] == c.fields;
  }

  lemma {:induction false} FilterAllKept(os: seq<ChoiceOutcome>, es: seq<JsValue>)
    requires |os| == |es| && forall i :: 0 <= i < |os| ==> os[i] == Kept(es[i])
    ensures FilterKept(os) == Some(es)
  {
    if os != [] {
      FilterAllKept(os[1..], es[1..]);
      assert [es[0]] + es[1..] == es;
    }
  }

  /** Normalising already-normalised choices changes nothing. */
  lemma NormaliseAllIdempotent(es: seq<JsValue>)
    requires forall k :: 0 <= k < |es| ==> IsWellFormedChoice(es[k])
    ensures NormaliseAll(es) == Some(es)
  {
    forall k | 0 <= k < |es| ensures ChoiceOutcomes(es)[k] == Kept(es[k]) {
      KeptChoiceIsFixedPoint(es[k]);
    }
    FilterAllKept(ChoiceOutcomes(es), es);
  }

  /** Entries are judged one at a time: a choice whose `text` is a number is
      dropped while a well-formed neighbour is kept. */
  lemma PerEntryValidation()
    ensures NormaliseAll([
        Obj(map["text" := Num(123), "nextSceneId" := Str("2")]),
        Obj(map["text" := Str("ok"), "nextSceneId" := Num(2)])])
      == Some([Obj(map["text" := Str("ok"), "nextSceneId" := Num(2)])])
  {
    var bad := Obj(map["text" := Num(123), "nextSceneId" := Str("2")]);
    var good := Obj(map["text" := Str("ok"), "nextSceneId" := Num(2)]);
    assert NormaliseChoice(bad) == Dropped;
    KeptChoiceIsFixedPoint(good);
    var os := ChoiceOutcomes([bad, good]);
    assert os == [Dropped, Kept(good)];
    assert os[1..] == [Kept(good)];
    FilterAllKept(os[1..], [good]);
    assert FilterKept(os) == FilterKept(os[1..]);
  }
}
