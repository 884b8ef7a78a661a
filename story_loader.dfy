/**
 * The data half of `fetchData` (src/App.jsx): from the decoded payload to
 * the sorted scene list and the initial scene id. The network request and
 * the HTTP status handling in front of it are not part of this model; the
 * model starts from the already decoded payload.
 */
module StoryLoader {
  import opened JsRuntime
  import opened ChoiceParsing

  /** A formatted row, `{ ...row, sceneId, choices }`: the integer id, the
      parsed choices, and the row's own fields, which the renderer reads for
      colours, alignment, background and music. */
  datatype Scene = Scene(sceneId: int, choices: seq<JsValue>, fields: map<string, JsValue>)

  /** What a row can throw inside the `data.map` callback: the error of
      `parseChoices`, or a TypeError from reading or printing its `sceneId`. */
  datatype RowError = RowChoicesError(cause: ChoicesError) | RowTypeError

  datatype RowOutcome = Skipped | Formatted(scene: Scene) | Threw(error: RowError)

  /** The ways the load fails, each with its own message in the source. */
  datatype LoadError =
    | NotAnArray                  // the payload is not an array
    | RowFailed(cause: RowError)  // some row threw; the last one is reported
    | NoValidScenes               // rows arrived, none had a numeric sceneId
    | NoData                      // no rows at all

  datatype Story = Story(scenes: seq<Scene>, initialSceneId: int)

  /** The list built by `data.map(...).filter(...)` and the
      `processingError` left by the row loop. */
  datatype Processed = Processed(formatted: seq<Scene>, processingError: Option<RowError>)

  const InitialSceneId: int := 1

  /** Reading `sceneId` of a row that is not an object gives `undefined`,
      which `parseInt` reads as NaN. */
  lemma UndefinedIdIsNaN()
    ensures ParseIntValue(Undefined) == Some(NaN)
  {
  }

  /** The `data.map` callback with its try/catch: a nullish row throws when
      its `sceneId` is read; a NaN id drops the row before `parseChoices` is
      called; a `parseChoices` failure is caught and recorded. */
  function ProcessRow(row: JsValue, parse: JsonParser): (r: RowOutcome)
    ensures r.Formatted? ==> row.Obj? && r.scene.fields == row.fields
    ensures r.Formatted? ==> ParseIntValue(Property(row, "sceneId")) == Some(Int(r.scene.sceneId))
    ensures r.Formatted? ==> ParseChoices(Property(row, "choices"), parse) == Ok(r.scene.choices)
  {
    UndefinedIdIsNaN();
    if IsNullish(row) then Threw(RowTypeError)
    else match ParseIntValue(Property(row, "sceneId"))
      case None => Threw(RowTypeError)
      case Some(NaN) => Skipped
      case Some(Int(id)) =>
        match ParseChoices(Property(row, "choices"), parse)
        case Err(e) => Threw(RowChoicesError(e))
        case Ok(cs) => Formatted(Scene(id, cs, row.fields))
  }

  /** The three outcomes of a row, each with its exact condition: the row
      is skipped exactly when its id parses to NaN; it throws a type error
      exactly when it is nullish or its id cannot be converted to a string;
      it throws a choices error exactly when its id is a number and its
      choices fail, and then with that failure. */
  lemma ProcessRowCases(row: JsValue, parse: JsonParser)
    ensures ProcessRow(row, parse).Skipped? <==>
      !IsNullish(row) && ParseIntValue(Property(row, "sceneId")) == Some(NaN)
    ensures ProcessRow(row, parse) == Threw(RowTypeError) <==>
      IsNullish(row) || ParseIntValue(Property(row, "sceneId")).None?
    ensures ProcessRow(row, parse).Threw? && ProcessRow(row, parse).error.RowChoicesError? <==>
      && !IsNullish(row)
      && ParseIntValue(Property(row, "sceneId")).Some?
      && ParseIntValue(Property(row, "sceneId")).value.Int?
      && ParseChoices(Property(row, "choices"), parse).Err?
    ensures ProcessRow(row, parse).Threw? && ProcessRow(row, parse).error.RowChoicesError? ==>
      ParseChoices(Property(row, "choices"), parse) == Err(ProcessRow(row, parse).error.cause)
  {
  }

  /** A row whose `sceneId` parses to NaN is dropped, and its `choices` cell
      is never looked at: the outcome is the same whatever the decoder. */
  lemma NaNRowIgnoresChoices(row: JsValue, parse: JsonParser, other: JsonParser)
    requires !IsNullish(row) && ParseIntValue(Property(row, "sceneId")) == Some(NaN)
    ensures ProcessRow(row, parse) == Skipped && ProcessRow(row, other) == Skipped
  {
  }

  /** The callback's outcome for every row, in order. */
  function Outcomes(rows: seq<JsValue>, parse: JsonParser): (o: seq<RowOutcome>)
    ensures |o| == |rows|
    ensures forall i :: 0 <= i < |rows| ==> o[i] == ProcessRow(rows[i], parse)
  {
    seq(|rows|, i requires 0 <= i < |rows| => ProcessRow(rows[i], parse))
  }

  /** The row loop, left to right: kept rows are appended, and every failure
      overwrites `processingError`. */
  function Collect(outcomes: seq<RowOutcome>): (p: Processed)
    ensures |p.formatted| <= |outcomes|
  {
    if outcomes == [] then Processed([], None)
    else
      var p := Collect(outcomes[..|outcomes| - 1]);
      match outcomes[|outcomes| - 1]
      case Skipped => p
      case Formatted(s) => Processed(p.formatted + [s], p.processingError)
      case Threw(e) => Processed(p.formatted, Some(e))
  }

  function ProcessAll(rows: seq<JsValue>, parse: JsonParser): Processed {
    Collect(Outcomes(rows, parse))
  }

  /** Running the loop over `a + b` is running it over `a`, then over `b`. */
  function Then(p: Processed, q: Processed): Processed {
    Processed(p.formatted + q.formatted,
              if q.processingError.Some? then q.processingError else p.processingError)
  }

  lemma {:induction false} CollectAppend(a: seq<RowOutcome>, b: seq<RowOutcome>)
    ensures Collect(a + b) == Then(Collect(a), Collect(b))
    decreases |b|
  {
    if b == [] {
      assert a + b == a;
    } else {
      var b' := b[..|b| - 1];
      assert (a + b)[..|a + b| - 1] == a + b';
      assert (a + b)[|a + b| - 1] == b[|b| - 1];
      CollectAppend(a, b');
      var p, q := Collect(a), Collect(b');
      match b[|b| - 1]
      case Skipped =>
      case Threw(e) =>
      case Formatted(x) =>
        assert (p.formatted + q.formatted) + [x] == p.formatted + (q.formatted + [x]);
    }
  }

  /** A dropped row leaves no trace in the result of the loop. */
  lemma DroppedRowIsInvisible(pre: seq<RowOutcome>, post: seq<RowOutcome>)
    ensures Collect(pre + [Skipped] + post) == Collect(pre + post)
  {
    assert [Skipped][..0] == [];
    CollectAppend(pre, [Skipped]);
    CollectAppend(pre + [Skipped], post);
    CollectAppend(pre, post);
  }

  lemma {:induction false} CollectErrorIff(outcomes: seq<RowOutcome>)
    ensures Collect(outcomes).processingError.None? <==>
      forall i :: 0 <= i < |outcomes| ==> !outcomes[i].Threw?
  {
    if outcomes != [] {
      var init := outcomes[..|outcomes| - 1];
      CollectErrorIff(init);
      assert forall i :: 0 <= i < |init| ==> init[i] == outcomes[i];
    }
  }

  lemma {:induction false} CollectEmptyIff(outcomes: seq<RowOutcome>)
    ensures Collect(outcomes).formatted == [] <==>
      forall i :: 0 <= i < |outcomes| ==> !outcomes[i].Formatted?
  {
    if outcomes != [] {
      var init := outcomes[..|outcomes| - 1];
      CollectEmptyIff(init);
      assert forall i :: 0 <= i < |init| ==> init[i] == outcomes[i];
    }
  }

  /** When several rows throw, `processingError` holds the last one's error. */
  lemma LastRowErrorWins(outcomes: seq<RowOutcome>, i: nat)
    requires i < |outcomes| && outcomes[i].Threw?
    requires forall j :: i < j < |outcomes| ==> !outcomes[j].Threw?
    ensures Collect(outcomes).processingError == Some(outcomes[i].error)
  {
    var pre, post := outcomes[..i + 1], outcomes[i + 1..];
    assert outcomes == pre + post;
    CollectAppend(pre, post);
    CollectErrorIff(post);
    assert pre[..|pre| - 1] == outcomes[..i];
  }

  /** A formatted scene is exactly what some row was turned into. */
  lemma {:induction false} CollectMembers(outcomes: seq<RowOutcome>, s: Scene)
    ensures s in Collect(outcomes).formatted <==>
      exists i :: 0 <= i < |outcomes| && outcomes[i] == Formatted(s)
  {
    if outcomes != [] {
      var init := outcomes[..|outcomes| - 1];
      CollectMembers(init, s);
      assert forall i :: 0 <= i < |init| ==> init[i] == outcomes[i];
      if outcomes[|outcomes| - 1] == Formatted(s) {
        assert s in Collect(outcomes).formatted;
      }
    }
  }

  // ---------------------------------------------------------------------
  // formattedData.sort((a, b) => a.sceneId - b.sceneId)

  predicate Sorted(scenes: seq<Scene>) {
    forall i, j :: 0 <= i < j < |scenes| ==> scenes[i].sceneId <= scenes[j].sceneId
  }

  /** The scenes with a given id, in their order. */
  function WithId(scenes: seq<Scene>, id: int): (r: seq<Scene>)
    ensures forall k :: 0 <= k < |r| ==> r[k].sceneId == id
  {
    if scenes == [] then []
    else (if scenes[0].sceneId == id then [scenes[0]] else []) + WithId(scenes[1..], id)
  }

  /** The scenes of `[h] + ys` with an id: `h` if it has the id, then
      those of `ys`. */
  lemma WithIdCons(h: Scene, ys: seq<Scene>, id: int)
    ensures WithId([h] + ys, id) == (if h.sceneId == id then [h] else []) + WithId(ys, id)
  {
    assert ([h] + ys)[0] == h && ([h] + ys)[1..] == ys;
  }

  lemma SortedTail(scenes: seq<Scene>)
    requires Sorted(scenes) && scenes != []
    ensures Sorted(scenes[1..])
  {
    forall i, j | 0 <= i < j < |scenes| - 1
      ensures scenes[1..][i].sceneId <= scenes[1..][j].sceneId
    {
      assert scenes[1..][i] == scenes[i + 1] && scenes[1..][j] == scenes[j + 1];
    }
  }

  lemma ConsSorted(h: Scene, rest: seq<Scene>)
    requires Sorted(rest) && (rest != [] ==> h.sceneId <= rest[0].sceneId)
    ensures Sorted([h] + rest)
  {
    var r := [h] + rest;
    forall i, j | 0 <= i < j < |r|
      ensures r[i].sceneId <= r[j].sceneId
    {
      assert r[j] == rest[j - 1];
      if i == 0 {
        assert rest[0].sceneId <= rest[j - 1].sceneId;
      } else {
        assert r[i] == rest[i - 1];
      }
    }
  }

  /** Places `x` in front of the first scene whose id is not smaller, so
      that it precedes the scenes with an equal id. */
  function Insert(x: Scene, sorted: seq<Scene>): (r: seq<Scene>)
    requires Sorted(sorted)
    ensures Sorted(r)
    ensures |r| == |sorted| + 1
    ensures r[0] == x || (sorted != [] && r[0] == sorted[0])
  {
    if sorted == [] || x.sceneId <= sorted[0].sceneId then
      ConsSorted(x, sorted);
      [x] + sorted
    else
      SortedTail(sorted);
      var rest := Insert(x, sorted[1..]);
      assert sorted[0].sceneId <= rest[0].sceneId by {
        if rest[0] != x {
          assert rest[0] == sorted[1];
        }
      }
      ConsSorted(sorted[0], rest);
      [sorted[0]] + rest
  }

  lemma {:induction false} InsertIsPermutation(x: Scene, sorted: seq<Scene>)
    requires Sorted(sorted)
    ensures multiset(Insert(x, sorted)) == multiset(sorted) + multiset{x}
  {
    if sorted != [] && x.sceneId > sorted[0].sceneId {
      SortedTail(sorted);
      InsertIsPermutation(x, sorted[1..]);
      assert sorted == [sorted[0]] + sorted[1..];
      assert Insert(x, sorted) == [sorted[0]] + Insert(x, sorted[1..]);
    }
  }

  /** A stable sort by `sceneId`: sorted, a permutation of its input (see
      `SortIsPermutation`), and scenes with equal ids stay in input order
      (see `SortIsStable`). */
  function SortBySceneId(scenes: seq<Scene>): (r: seq<Scene>)
    ensures Sorted(r)
    ensures |r| == |scenes|
  {
    if scenes == [] then []
    else Insert(scenes[0], SortBySceneId(scenes[1..]))
  }

  lemma {:induction false} SortIsPermutation(scenes: seq<Scene>)
    ensures multiset(SortBySceneId(scenes)) == multiset(scenes)
  {
    if scenes != [] {
      var rest := SortBySceneId(scenes[1..]);
      assert SortBySceneId(scenes) == Insert(scenes[0], rest);
      assert multiset(scenes) == multiset{scenes[0]} + multiset(scenes[1..]) by {
        assert scenes == [scenes[0]] + scenes[1..];
      }
      SortIsPermutation(scenes[1..]);
      InsertIsPermutation(scenes[0], rest);
    }
  }

  lemma {:induction false} InsertKeepsIdOrder(x: Scene, sorted: seq<Scene>, id: int)
    requires Sorted(sorted)
    ensures WithId(Insert(x, sorted), id) == WithId([x] + sorted, id)
  {
    if sorted != [] && x.sceneId > sorted[0].sceneId {
      var head, tail := sorted[0], sorted[1..];
      assert sorted == [head] + tail;
      SortedTail(sorted);
      InsertKeepsIdOrder(x, tail, id);
      WithIdCons(head, Insert(x, tail), id);
      WithIdCons(x, tail, id);
      WithIdCons(x, sorted, id);
      WithIdCons(head, tail, id);
      // x and head have different ids, so at most one of them has `id`
      // and their order does not matter
    }
  }

  /** Stability: among the scenes with one id, the order is the input order. */
  lemma {:induction false} SortIsStable(scenes: seq<Scene>, id: int)
    ensures WithId(SortBySceneId(scenes), id) == WithId(scenes, id)
  {
    if scenes != [] {
      var rest := SortBySceneId(scenes[1..]);
      SortIsStable(scenes[1..], id);
      InsertKeepsIdOrder(scenes[0], rest, id);
      WithIdCons(scenes[0], rest, id);
      WithIdCons(scenes[0], scenes[1..], id);
      assert scenes == [scenes[0]] + scenes[1..];
    }
  }

  lemma {:induction false} WithIdEmpty(scenes: seq<Scene>, id: int)
    ensures WithId(scenes, id) == [] <==> forall i :: 0 <= i < |scenes| ==> scenes[i].sceneId != id
  {
    if scenes != [] {
      WithIdEmpty(scenes[1..], id);
      assert forall i :: 1 <= i < |scenes| ==> scenes[i] == scenes[1..][i - 1];
    }
  }

  lemma {:induction false} WithIdHead(scenes: seq<Scene>)
    requires scenes != []
    ensures WithId(scenes, scenes[0].sceneId) == [scenes[0]] + WithId(scenes[1..], scenes[0].sceneId)
  {
  }

  /** Removing the first scene of a sorted list removes the first scene of
      its id and nothing from any other id. */
  lemma WithIdTail(scenes: seq<Scene>, id: int)
    requires scenes != []
    ensures scenes[0].sceneId == id ==> WithId(scenes[1..], id) == WithId(scenes, id)[1..]
    ensures scenes[0].sceneId != id ==> WithId(scenes[1..], id) == WithId(scenes, id)
  {
  }

  /** Two sorted lists with the same scenes per id start with the same
      scene: both start with the first scene of the smallest id. */
  lemma SameHead(r: seq<Scene>, s: seq<Scene>)
    requires Sorted(r) && Sorted(s) && r != [] && s != []
    requires forall id :: WithId(r, id) == WithId(s, id)
    ensures r[0] == s[0]
  {
    var m, n := r[0].sceneId, s[0].sceneId;
    WithIdHead(r);
    WithIdHead(s);
    assert m == n by {
      assert WithId(s, m) != [] && WithId(r, n) != [];
      WithIdEmpty(s, m);
      WithIdEmpty(r, n);
      var i :| 0 <= i < |s| && s[i].sceneId == m;
      var j :| 0 <= j < |r| && r[j].sceneId == n;
      assert n <= m && m <= n;
    }
    assert r[0] == WithId(r, m)[0] == WithId(s, m)[0] == s[0];
  }

  /** A stable sort has only one possible result: any sorted list that
      keeps every id's scenes in input order is the one computed here, so
      the model does not depend on the sorting algorithm. */
  lemma {:induction false} StableSortIsUnique(r: seq<Scene>, s: seq<Scene>)
    requires Sorted(r) && Sorted(s)
    requires forall id :: WithId(r, id) == WithId(s, id)
    ensures r == s
    decreases |r|
  {
    if r != [] || s != [] {
      assert r != [] && s != [] by {
        if r != [] {
          WithIdHead(r);
          assert WithId(s, r[0].sceneId) != [];
        }
        if s != [] {
          WithIdHead(s);
          assert WithId(r, s[0].sceneId) != [];
        }
      }
      assert r[0] == s[0] by { SameHead(r, s); }
      assert forall id :: WithId(r[1..], id) == WithId(s[1..], id) by {
        forall id
          ensures WithId(r[1..], id) == WithId(s[1..], id)
        {
          WithIdTail(r, id);
          WithIdTail(s, id);
        }
      }
      SortedTail(r);
      SortedTail(s);
      StableSortIsUnique(r[1..], s[1..]);
      assert r == [r[0]] + r[1..] && s == [s[0]] + s[1..];
    }
  }

  // ---------------------------------------------------------------------
  // Lookup and the initial scene

  /** `scenes.findIndex(s => s.sceneId === id)`, as an option. */
  function FindIndex(scenes: seq<Scene>, id: int): (r: Option<nat>)
    ensures r.None? <==> forall i :: 0 <= i < |scenes| ==> scenes[i].sceneId != id
    ensures r.Some? ==> r.value < |scenes| && scenes[r.value].sceneId == id
    ensures r.Some? ==> forall j :: 0 <= j < r.value ==> scenes[j].sceneId != id
  {
    if scenes == [] then None
    else if scenes[0].sceneId == id then Some(0)
    else match FindIndex(scenes[1..], id)
      case None => None
      case Some(k) => Some(k + 1)
  }

  /** `scenes.find(s => s.sceneId === id)`: the first scene with that id. */
  function FindScene(scenes: seq<Scene>, id: int): (r: Option<Scene>)
    ensures r.Some? ==> r.value in scenes && r.value.sceneId == id
    ensures r.None? <==> forall i :: 0 <= i < |scenes| ==> scenes[i].sceneId != id
  {
    match FindIndex(scenes, id)
    case None => None
    case Some(i) => Some(scenes[i])
  }

  /** `scenes.some(s => s.sceneId === id)`; by the contract of `FindIndex`,
      some scene has that id. */
  predicate HasScene(scenes: seq<Scene>, id: int) {
    FindIndex(scenes, id).Some?
  }

  /** `find` gives the head of the scenes with that id. */
  lemma {:induction false} FindSceneIsFirstWithId(scenes: seq<Scene>, id: int)
    ensures FindScene(scenes, id) == if WithId(scenes, id) == [] then None else Some(WithId(scenes, id)[0])
  {
    WithIdEmpty(scenes, id);
    if scenes != [] && scenes[0].sceneId != id {
      FindSceneIsFirstWithId(scenes[1..], id);
      assert FindScene(scenes, id) == FindScene(scenes[1..], id) by {
        var k := FindIndex(scenes[1..], id);
        if k.Some? { assert scenes[1..][k.value] == scenes[k.value + 1]; }
      }
    }
  }

  /** Id 1 when some scene has it, otherwise the first scene's id, which in
      a sorted list is the smallest. */
  function InitialScene(scenes: seq<Scene>): (id: int)
    requires scenes != []
    ensures HasScene(scenes, id)
    ensures HasScene(scenes, InitialSceneId) ==> id == InitialSceneId
    ensures !HasScene(scenes, InitialSceneId) && Sorted(scenes) ==>
      forall i :: 0 <= i < |scenes| ==> id <= scenes[i].sceneId
  {
    if FindScene(scenes, InitialSceneId).Some? then InitialSceneId else scenes[0].sceneId
  }

  // ---------------------------------------------------------------------
  // The whole load

  /** What `fetchData` makes of a decoded payload. */
  function Load(payload: JsValue, parse: JsonParser): (r: Result<Story, LoadError>)
    ensures r == Err(NotAnArray) <==> !payload.Arr?
    ensures r.Ok? ==> r.value.scenes != [] && Sorted(r.value.scenes)
    ensures r.Ok? ==> HasScene(r.value.scenes, r.value.initialSceneId)
  {
    if !payload.Arr? then Err(NotAnArray)
    else
      var p := ProcessAll(payload.elems, parse);
      if p.processingError.Some? then Err(RowFailed(p.processingError.value))
      else if |p.formatted| == 0 && |payload.elems| > 0 then Err(NoValidScenes)
      else if |p.formatted| == 0 then Err(NoData)
      else
        var sorted := SortBySceneId(p.formatted);
        Ok(Story(sorted, InitialScene(sorted)))
  }

  /** The load fails with a row's error exactly when some row throws (the
      last such row's error), with "no valid scenes" exactly when rows
      arrived and every one was dropped, and with "no data" exactly for an
      empty array. */
  lemma LoadErrors(rows: seq<JsValue>, parse: JsonParser)
    ensures Load(Arr(rows), parse).Err? && Load(Arr(rows), parse).error.RowFailed? <==>
      exists i :: 0 <= i < |rows| && ProcessRow(rows[i], parse).Threw?
    ensures Load(Arr(rows), parse) == Err(NoValidScenes) <==>
      |rows| > 0 && forall i :: 0 <= i < |rows| ==> ProcessRow(rows[i], parse).Skipped?
    ensures Load(Arr(rows), parse) == Err(NoData) <==> rows == []
  {
    CollectErrorIff(Outcomes(rows, parse));
    CollectEmptyIff(Outcomes(rows, parse));
  }

  /** On success the scenes are the formatted rows, sorted by id, with the
      rows of one id in input order. */
  lemma LoadSuccess(rows: seq<JsValue>, parse: JsonParser)
    requires Load(Arr(rows), parse).Ok?
    ensures var story, p := Load(Arr(rows), parse).value, ProcessAll(rows, parse);
      && p.processingError.None?
      && multiset(story.scenes) == multiset(p.formatted)
      && (forall id :: WithId(story.scenes, id) == WithId(p.formatted, id))
      && (forall s :: s in story.scenes <==> exists i :: 0 <= i < |rows| && ProcessRow(rows[i], parse) == Formatted(s))
  {
    var p := ProcessAll(rows, parse);
    forall id ensures WithId(SortBySceneId(p.formatted), id) == WithId(p.formatted, id) {
      SortIsStable(p.formatted, id);
    }
    SortIsPermutation(p.formatted);
    forall s ensures s in SortBySceneId(p.formatted) <==> s in p.formatted {
      assert s in multiset(SortBySceneId(p.formatted)) <==> s in multiset(p.formatted);
    }
    forall s ensures s in p.formatted <==> exists i :: 0 <= i < |rows| && ProcessRow(rows[i], parse) == Formatted(s) {
      CollectMembers(Outcomes(rows, parse), s);
    }
  }

  /** Duplicate ids are not rejected: looking an id up in the loaded story
      gives the scene of the earliest row with that id. */
  lemma LookupPrefersEarliestRow(rows: seq<JsValue>, parse: JsonParser, id: int)
    requires Load(Arr(rows), parse).Ok?
    ensures FindScene(Load(Arr(rows), parse).value.scenes, id) == FindScene(ProcessAll(rows, parse).formatted, id)
  {
    var p := ProcessAll(rows, parse);
    var sorted := SortBySceneId(p.formatted);
    SortIsStable(p.formatted, id);
    FindSceneIsFirstWithId(sorted, id);
    FindSceneIsFirstWithId(p.formatted, id);
  }

  /** `fetchData` from the decoded payload on: the row loop that records
      `processingError`, then the checks, the sort and the initial id. */
  method FormatStory(payload: JsValue, parse: JsonParser) returns (result: Result<Story, LoadError>)
    ensures result == Load(payload, parse)
  {
    if !payload.Arr? {
      return Err(NotAnArray);
    }
    var data := payload.elems;
    ghost var outcomes := Outcomes(data, parse);
    var formatted: seq<Scene> := [];
    var processingError: Option<RowError> := None;
    for index := 0 to |data|
      invariant Processed(formatted, processingError) == Collect(outcomes[..index])
    {
      assert outcomes[..index + 1][..index] == outcomes[..index];
      match ProcessRow(data[index], parse)
      case Skipped =>
      case Formatted(scene) => formatted := formatted + [scene];
      case Threw(e) => processingError := Some(e);
    }
    assert Processed(formatted, processingError) == ProcessAll(data, parse) by {
      assert outcomes[..|data|] == outcomes;
    }
    if processingError.Some? {
      return Err(RowFailed(processingError.value));
    }
    if |formatted| == 0 && |data| > 0 {
      return Err(NoValidScenes);
    }
    if |formatted| == 0 {
      return Err(NoData);
    }
    var sorted := SortBySceneId(formatted);
    var initial := if FindScene(sorted, InitialSceneId).Some? then InitialSceneId else sorted[0].sceneId;
    result := Ok(Story(sorted, initial));
  }

  /** An empty array is "no data". */
  lemma EmptyPayload(parse: JsonParser)
    ensures Load(Arr([]), parse) == Err(NoData)
  {
  }

  /** A one-row payload: the loop sees that row's outcome only. */
  lemma SingleRow(row: JsValue, parse: JsonParser)
    ensures ProcessAll([row], parse) == Collect([ProcessRow(row, parse)])
  {
    assert Outcomes([row], parse) == [ProcessRow(row, parse)];
  }

  /** A single row with a non-numeric id leaves nothing valid. */
  lemma OnlyInvalidIdRow(parse: JsonParser)
    ensures Load(Arr([Obj(map["sceneId" := Str("x"), "choices" := Str("[]")])]), parse) == Err(NoValidScenes)
  {
    var row := Obj(map["sceneId" := Str("x"), "choices" := Str("[]")]);
    assert ProcessRow(row, parse) == Skipped by {
      assert Property(row, "sceneId") == Str("x");
      assert ParseIntValue(Str("x")) == Some(NaN) by {
        ParseIntNaNWithoutDigits("x", 10);
        assert "x"[0] == 'x';
      }
    }
    SkippedRowFails(row, parse);
  }

  /** A single row that is skipped leaves no valid scene. */
  lemma SkippedRowFails(row: JsValue, parse: JsonParser)
    requires ProcessRow(row, parse) == Skipped
    ensures Load(Arr([row]), parse) == Err(NoValidScenes)
  {
    SingleRow(row, parse);
    assert [Skipped][..0] == [];
  }

  /** The decoder's failure on a choices cell is `parseChoices`' error. */
  lemma UndecodableCell(parse: JsonParser)
    requires parse("not-json") == None
    ensures ParseChoices(Str("not-json"), parse) == Err(ChoicesError("not-json"))
  {
    CleanedKeepsPlainText("not-json");
  }

  lemma IdOneParses()
    ensures ParseIntValue(Str("1")) == Some(Int(1))
  {
    ParseIntIgnoresTrailing("1", "");
    assert "1" + "" == "1";
  }

  /** A row with a numeric id whose choices cell fails throws that error. */
  lemma RowThrowsOnChoices(row: JsValue, parse: JsonParser, id: int, e: ChoicesError)
    requires row.Obj? && ParseIntValue(Property(row, "sceneId")) == Some(Int(id))
    requires ParseChoices(Property(row, "choices"), parse) == Err(e)
    ensures ProcessRow(row, parse) == Threw(RowChoicesError(e))
  {
  }

  /** A single row that throws fails the load with its error. */
  lemma ThrowingRowFails(row: JsValue, parse: JsonParser, e: RowError)
    requires ProcessRow(row, parse) == Threw(e)
    ensures Load(Arr([row]), parse) == Err(RowFailed(e))
  {
    SingleRow(row, parse);
    assert [Threw(e)][..0] == [];
  }

  /** A row whose choices cell does not decode fails the whole load. */
  lemma UndecodableChoices(parse: JsonParser)
    requires parse("not-json") == None
    ensures Load(Arr([Obj(map["sceneId" := Str("1"), "choices" := Str("not-json")])]), parse)
         == Err(RowFailed(RowChoicesError(ChoicesError("not-json"))))
  {
    var row := Obj(map["sceneId" := Str("1"), "choices" := Str("not-json")]);
    var e := RowChoicesError(ChoicesError("not-json"));
    assert ProcessRow(row, parse) == Threw(e) by {
      IdOneParses();
      UndecodableCell(parse);
      RowThrowsOnChoices(row, parse, 1, ChoicesError("not-json"));
    }
    ThrowingRowFails(row, parse, e);
  }

}
