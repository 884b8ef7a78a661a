/**
 * The path rules of the effect that follows the current scene in
 * src/App.jsx: the background image URL and the decision about the
 * background music player. Writing the styles and calling `load` and
 * `pause` on the audio element are not part of this model; the decision
 * they carry out is.
 */
module SceneMedia {
  import opened JsRuntime

  predicate StartsWith(s: string, prefix: string) {
    |prefix| <= |s| && s[..|prefix|] == prefix
  }

  datatype Background = ImageUrl(url: string) | NoImage

  /** The `backgroundImage` cell: a non-empty string is made root-relative
      unless it already starts with "/"; a falsy cell means no image; any
      other value has no `startsWith` and throws (None). */
  function BackgroundFor(bg: JsValue): (r: Option<Background>)
    ensures r == Some(NoImage) <==> IsFalsy(bg)
    ensures r.None? <==> !IsFalsy(bg) && !bg.Str?
    ensures r.Some? && r.value.ImageUrl? ==> StartsWith(r.value.url, "/")
    ensures bg.Str? && StartsWith(bg.s, "/") ==> r == Some(ImageUrl(bg.s))
    ensures bg.Str? && bg.s != "" && !StartsWith(bg.s, "/") ==> r == Some(ImageUrl("/" + bg.s))
  {
    if IsFalsy(bg) then Some(NoImage)
    else if !bg.Str? then None
    else if StartsWith(bg.s, "/") then Some(ImageUrl(bg.s))
    else Some(ImageUrl("/" + bg.s))
  }

  /** The rule is idempotent: a URL it produced is kept as it is. */
  lemma BackgroundUrlIsStable(bg: JsValue)
    requires BackgroundFor(bg).Some? && BackgroundFor(bg).value.ImageUrl?
    ensures var url := BackgroundFor(bg).value.url;
      BackgroundFor(Str(url)) == Some(ImageUrl(url))
  {
  }

  /** Unlike the music rule, the background rule has no exception for
      absolute URLs: "http://host/a.jpg" becomes "/http://host/a.jpg". */
  lemma AbsoluteBackgroundGetsSlash(rest: string)
    ensures BackgroundFor(Str("http" + rest)) == Some(ImageUrl("/http" + rest))
  {
    assert ("http" + rest)[..1] == "h";
    assert "/" + ("http" + rest) == "/http" + rest;
  }

  /** `correctedMusicSrc`: a non-empty string is made root-relative unless
      it starts with "/" or "http"; a falsy value stays falsy (written "");
      any other value throws (None). */
  function CorrectedMusic(music: JsValue): (r: Option<string>)
    ensures r == Some("") <==> IsFalsy(music)
    ensures r.None? <==> !IsFalsy(music) && !music.Str?
    ensures r.Some? && r.value != "" ==> StartsWith(r.value, "/") || StartsWith(r.value, "http")
    ensures music.Str? && (StartsWith(music.s, "/") || StartsWith(music.s, "http")) ==> r == Some(music.s)
  {
    if IsFalsy(music) then Some("")
    else if !music.Str? then None
    else if StartsWith(music.s, "/") || StartsWith(music.s, "http") then Some(music.s)
    else Some("/" + music.s)
  }

  /** What the effect does to the player. */
  datatype BgmAction =
    | LoadTrack(src: string)  // set `src` and call `load`
    | StopTrack               // pause, rewind and remove `src`
    | KeepPlaying             // leave the player alone

  /** The decision, given the scene's music cell and the player's current
      `src` attribute (None when it has none): load when there is a track
      and it differs from the current one, stop when there is no track but
      something is playing, otherwise leave it. None when reading the cell
      throws. */
  function BgmDecision(music: JsValue, currentSrc: Option<string>): (r: Option<BgmAction>)
    ensures r.None? <==> CorrectedMusic(music).None?
    ensures r.Some? && r.value.LoadTrack? <==>
      CorrectedMusic(music).Some? && CorrectedMusic(music).value != ""
      && currentSrc != CorrectedMusic(music)
    ensures r == Some(StopTrack) <==>
      IsFalsy(music) && currentSrc.Some? && currentSrc.value != ""
  {
    match CorrectedMusic(music)
    case None => None
    case Some(src) =>
      if src != "" && Some(src) != currentSrc then Some(LoadTrack(src))
      else if src == "" && currentSrc.Some? && currentSrc.value != "" then Some(StopTrack)
      else Some(KeepPlaying)
  }

  /** The player's `src` attribute after the action. */
  function ApplyBgm(action: BgmAction, currentSrc: Option<string>): Option<string> {
    match action
    case LoadTrack(src) => Some(src)
    case StopTrack => None
    case KeepPlaying => currentSrc
  }

  /** Once the action is carried out, the same scene asks for nothing more:
      the music does not restart when a scene is shown again or when the
      next scene has the same track. */
  lemma BgmDecisionSettles(music: JsValue, currentSrc: Option<string>)
    requires BgmDecision(music, currentSrc).Some?
    ensures BgmDecision(music, ApplyBgm(BgmDecision(music, currentSrc).value, currentSrc)) == Some(KeepPlaying)
  {
  }

  /** A track that is loaded always has a root-relative or an http(s) URL. */
  lemma LoadedTrackIsRooted(music: JsValue, currentSrc: Option<string>)
    requires BgmDecision(music, currentSrc).Some? && BgmDecision(music, currentSrc).value.LoadTrack?
    ensures var src := BgmDecision(music, currentSrc).value.src;
      src != "" && (StartsWith(src, "/") || StartsWith(src, "http"))
  {
  }

  /** "track.mp3" is played from "/track.mp3", and a player already on that
      URL keeps playing. */
  lemma RelativeTrackExample()
    ensures BgmDecision(Str("track.mp3"), None) == Some(LoadTrack("/track.mp3"))
    ensures BgmDecision(Str("track.mp3"), Some("/track.mp3")) == Some(KeepPlaying)
  {
    assert "track.mp3"[0] == 't' && "track.mp3"[..1] != "/";
    assert "track.mp3"[..4] != "http";
    assert "/" + "track.mp3" == "/track.mp3";
  }
}
