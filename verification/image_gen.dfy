/**
 * The deterministic part of img/ai_gen.py: the file-name slug, the size and quality choices,
 * the file name, the two prompt builders, and the control flow of the byte generation with
 * its 512-to-1024 retry. The images endpoint (with its SDK-signature retries, the base64 and
 * URL decoding of the reply) is an oracle.
 */
module ImageGen {
  import opened Wrappers
  import opened Text

  type Byte = bv8

  /** What one call to the images endpoint yields, after `_resp_first_item` and `_bytes_from_item`:
      the call raised; it answered with no item; its item has no data; decoding the item's data
      raised (bad base64, a URL reply without `requests`, an HTTP error status); or the bytes. */
  datatype Reply = CallFailed(error: string) | NoItem | NoData | DecodeFailed(error: string) | Data(bytes: seq<Byte>)

  /** The endpoint: prompt, size, quality. */
  type Images = (string, string, string) -> Reply

  const Fallback: string := "img"
  const DefaultSize: string := "1024x1024"
  const SmallSize: string := "512x512"
  const AllowedSizes: set<string> := {"512x512", "1024x1024", "1024x1536", "1536x1024"}
  const AllowedQualities: set<string> := {"low", "medium", "high"}
  const DefaultQuality: string := "low"
  const DefaultScene: string := "depict the core conflict and atmosphere"
  const NoItemError: string := "API nu a returnat niciun element de imagine."
  const NoDataError: string := "API nu a returnat nici b64_json, nici url pentru imagine."

  // ------------------------------------------------------------------ slug

  predicate SlugChar(c: char) {
    IsAlnum(c) || c == '-' || c == '_' || c == '.'
  }

  /** Every character that is not alphanumeric or one of `-_.` becomes `_`. */
  function Sanitize(s: string): (r: string)
    ensures |r| == |s|
    ensures forall i :: 0 <= i < |s| ==> r[i] == if SlugChar(s[i]) then s[i] else '_'
    ensures forall i :: 0 <= i < |r| ==> SlugChar(r[i])
  {
    seq(|s|, i requires 0 <= i < |s| => if SlugChar(s[i]) then s[i] else '_')
  }

  /** The underscores at both ends of a sanitised string removed. */
  function TrimUnderscores(t: string): (u: string)
    requires forall i :: 0 <= i < |t| ==> SlugChar(t[i])
    ensures forall i :: 0 <= i < |u| ==> SlugChar(u[i])
    ensures u == [] || (u[0] != '_' && u[|u| - 1] != '_')
    ensures u == [] <==> forall i :: 0 <= i < |t| ==> t[i] == '_'
  {
    StripCharKeeps(t, '_', SlugChar);
    StripChar(t, '_')
  }

  /** The stripped title, sanitised, with the underscores at both ends removed. */
  function Trimmed(s: string): (u: string)
    ensures forall i :: 0 <= i < |u| ==> SlugChar(u[i])
    ensures u == [] || (u[0] != '_' && u[|u| - 1] != '_')
  {
    TrimUnderscores(Sanitize(Strip(s)))
  }

  /** `_slug(s)`: never empty, only alphanumerics and `-_.`, no `_` at either end. */
  function Slug(s: string): (r: string)
    ensures r != []
    ensures forall i :: 0 <= i < |r| ==> SlugChar(r[i])
    ensures r[0] != '_' && r[|r| - 1] != '_'
  {
    var u := Trimmed(s);
    if u == [] then
      FallbackIsSlug();
      Fallback
    else u
  }

  /** "img" is made of slug characters. */
  lemma FallbackIsSlug()
    ensures forall i :: 0 <= i < |Fallback| ==> SlugChar(Fallback[i])
  {
    assert SlugChar(Fallback[0]) && SlugChar(Fallback[1]) && SlugChar(Fallback[2]);
  }

  /** A title with nothing but underscores and unusable characters (or nothing at all) once
      stripped falls back to "img". */
  lemma SlugFallback(s: string)
    requires forall i :: 0 <= i < |Strip(s)| ==> Strip(s)[i] == '_' || !SlugChar(Strip(s)[i])
    ensures Slug(s) == Fallback
  {
    var t := Sanitize(Strip(s));
    assert forall i :: 0 <= i < |t| ==> t[i] == '_';
    assert Trimmed(s) == [];
  }

  /** A name already in slug form is its own slug. */
  predicate IsSlug(s: string) {
    s != [] && (forall i :: 0 <= i < |s| ==> SlugChar(s[i])) && s[0] != '_' && s[|s| - 1] != '_'
  }

  /** `_slug` is idempotent: its output is in slug form, and slug forms are left unchanged. */
  lemma SlugIdempotent(s: string)
    ensures IsSlug(Slug(s))
    ensures Slug(Slug(s)) == Slug(s)
  {
    SlugFixed(Slug(s));
  }

  lemma SlugFixed(s: string)
    requires IsSlug(s)
    ensures Slug(s) == s
  {
    assert NoEdgeSpace(s) by {
      assert !IsSpace(s[0]) by { assert SlugChar(s[0]); }
      assert !IsSpace(s[|s| - 1]) by { assert SlugChar(s[|s| - 1]); }
    }
    assert Strip(s) == s;
    assert Sanitize(s) == s;
  }

  // ------------------------------------------------------------------ choices

  /** `_choose_size(size)`. */
  function ChooseSize(size: string): (r: string)
    ensures r in AllowedSizes
    ensures size in AllowedSizes ==> r == size
    ensures size !in AllowedSizes ==> r == DefaultSize
  {
    if size in AllowedSizes then size else DefaultSize
  }

  /** `_choose_quality(q)`: `None` and "" give "low". */
  function ChooseQuality(q: Option<string>): (r: string)
    ensures r in AllowedQualities
    ensures q.None? || q == Some("") ==> r == DefaultQuality
    ensures q.Some? && Lower(q.value) in AllowedQualities ==> r == Lower(q.value)
    ensures q.Some? && Lower(q.value) !in AllowedQualities ==> r == DefaultQuality
  {
    if q.None? || q.value == "" then DefaultQuality
    else
      var l := Lower(q.value);
      if l in AllowedQualities then l else DefaultQuality
  }

  /** Choosing twice changes nothing. */
  lemma ChoicesIdempotent(size: string, q: Option<string>)
    ensures ChooseSize(ChooseSize(size)) == ChooseSize(size)
    ensures ChooseQuality(Some(ChooseQuality(q))) == ChooseQuality(q)
  {
    var r := ChooseQuality(q);
    assert Lower(r) == r by {
      assert r == "low" || r == "medium" || r == "high";
    }
  }

  /** `_filename(kind, title, size)`. */
  function Filename(kind: string, title: string, size: string): string {
    Slug(title) + "_" + kind + "_" + size + ".png"
  }

  // ------------------------------------------------------------------ prompts

  /** `(x or "").strip()`. */
  function Clean(x: Option<string>): (r: string)
    ensures NoEdgeSpace(r)
    ensures x.None? ==> r == ""
  {
    Strip(x.GetOr(""))
  }

  const CoverStem: string := "Design an illustrated book cover concept for the novel "
  const CoverOpening: string := CoverStem + "'"
  const CoverClosing: string := " Visualize the core motifs and mood without placing any text on the image. Cinematic lighting, cohesive color palette, painterly, clean composition."
  const ThemesClause: string := " Themes: "

  /** `build_cover_prompt(title, themes)`. */
  function BuildCoverPrompt(title: string, themes: Option<string>): (p: string)
    ensures Clean(themes) == "" ==> p == CoverOpening + title + "'." + CoverClosing
    ensures Clean(themes) != "" ==> p == CoverOpening + title + "'." + ThemesClause + Clean(themes) + "." + CoverClosing
  {
    var t := Clean(themes);
    var part := if t != "" then ThemesClause + t + "." else "";
    CoverOpening + title + "'." + part + CoverClosing
  }

  /** The cover prompt has a "Themes:" clause exactly when the stripped themes are non-empty. */
  lemma CoverThemesClause(title: string, themes: Option<string>)
    ensures Clean(themes) != "" ==> Contains(BuildCoverPrompt(title, themes), ThemesClause + Clean(themes) + ".")
    ensures Clean(themes) == "" ==> BuildCoverPrompt(title, themes) == BuildCoverPrompt(title, None)
  {
    var t := Clean(themes);
    if t != "" {
      var clause := ThemesClause + t + ".";
      assert BuildCoverPrompt(title, themes) == (CoverOpening + title + "'.") + clause + CoverClosing;
      ContainsMiddle(CoverOpening + title + "'.", clause, CoverClosing);
    }
  }

  /** The cover prompt names the title in single quotes. */
  lemma CoverNamesTitle(title: string, themes: Option<string>)
    ensures Contains(BuildCoverPrompt(title, themes), "'" + title + "'")
  {
    var part := if Clean(themes) != "" then ThemesClause + Clean(themes) + "." else "";
    assert BuildCoverPrompt(title, themes) == CoverStem + "'" + title + "'." + part + CoverClosing;
    QuotedInside(CoverStem, title, part, CoverClosing);
  }

  /** A title opened and closed by quotes is contained in the text around it. */
  lemma QuotedInside(stem: string, t: string, x: string, y: string)
    ensures Contains(stem + "'" + t + "'." + x + y, "'" + t + "'")
  {
    assert stem + "'" + t + "'." + x + y == stem + ("'" + t + "'") + ("." + x + y);
    ContainsMiddle(stem, "'" + t + "'", "." + x + y);
  }

  const SceneOpening: string := "Key scene illustration for '"
  const SceneClosing: string := ". Wide shot, cinematic mood, no text on the image."

  /** The scene text: the stripped scene, or the default when it is empty. */
  function SceneText(scene: Option<string>): (r: string)
    ensures r != ""
    ensures Clean(scene) != "" ==> r == Clean(scene)
    ensures Clean(scene) == "" ==> r == DefaultScene
  {
    if Clean(scene) != "" then Clean(scene) else DefaultScene
  }

  /** `build_scene_prompt(title, scene, themes)`. */
  function BuildScenePrompt(title: string, scene: Option<string>, themes: Option<string>): (p: string)
    ensures var part := if Clean(themes) != "" then "(themes: " + Clean(themes) + ")" else "";
      p == SceneOpening + title + "'. " + SceneText(scene) + " " + part + SceneClosing
  {
    var t := Clean(themes);
    var part := if t != "" then "(themes: " + t + ")" else "";
    SceneOpening + title + "'. " + SceneText(scene) + " " + part + SceneClosing
  }

  /** A blank scene is replaced by the default one, so a blank and a missing scene give the same prompt. */
  lemma BlankSceneDefault(title: string, scene: Option<string>, themes: Option<string>)
    requires Clean(scene) == ""
    ensures BuildScenePrompt(title, scene, themes) == BuildScenePrompt(title, Some(DefaultScene), themes)
    ensures Contains(BuildScenePrompt(title, scene, themes), DefaultScene)
  {
    DefaultSceneClean();
    var part := if Clean(themes) != "" then "(themes: " + Clean(themes) + ")" else "";
    SecondOfFive(SceneOpening + title + "'. ", DefaultScene, " ", part, SceneClosing);
  }

  /** The default scene has no surrounding whitespace, so cleaning keeps it. */
  lemma DefaultSceneClean()
    ensures Clean(Some(DefaultScene)) == DefaultScene
  {
    assert NoEdgeSpace(DefaultScene) by {
      assert DefaultScene[0] == 'd' && DefaultScene[|DefaultScene| - 1] == 'e';
    }
  }

  /** The second of five concatenated pieces is contained in the whole. */
  lemma SecondOfFive(a: string, m: string, x: string, y: string, z: string)
    ensures Contains(a + m + x + y + z, m)
  {
    assert a + m + x + y + z == a + m + (x + y + z);
    ContainsMiddle(a, m, x + y + z);
  }

  // ------------------------------------------------------------------ generation

  /** The first call, and the retry at 1024x1024 when the first call at 512x512 failed. */
  function CallWithRetry(prompt: string, size: string, quality: string, images: Images): (r: Reply)
    ensures !images(prompt, size, quality).CallFailed? ==> r == images(prompt, size, quality)
    ensures images(prompt, size, quality).CallFailed? && size == SmallSize ==> r == images(prompt, DefaultSize, quality)
    ensures images(prompt, size, quality).CallFailed? && size != SmallSize ==> r == images(prompt, size, quality)
  {
    var first := images(prompt, size, quality);
    if first.CallFailed? && size == SmallSize then images(prompt, DefaultSize, quality) else first
  }

  /** `_generate_image_bytes(prompt, size, quality)`. */
  function GenerateImageBytes(prompt: string, size: string, quality: Option<string>, images: Images): (r: Result<seq<Byte>, string>)
    ensures r.Success? ==> r.value != []
    ensures var reply := CallWithRetry(prompt, ChooseSize(size), ChooseQuality(quality), images);
      && (reply.CallFailed? || reply.DecodeFailed? ==> r == Failure(reply.error))
      && (reply.NoItem? ==> r == Failure(NoItemError))
      && (reply.NoData? || reply == Data([]) ==> r == Failure(NoDataError))
      && (reply.Data? && reply.bytes != [] ==> r == Success(reply.bytes))
  {
    var reply := CallWithRetry(prompt, ChooseSize(size), ChooseQuality(quality), images);
    match reply
    case CallFailed(e) => Failure(e)
    case NoItem => Failure(NoItemError)
    case NoData => Failure(NoDataError)
    case DecodeFailed(e) => Failure(e)
    case Data(b) => if b == [] then Failure(NoDataError) else Success(b)
  }

  /** Only a raising call is retried: a 512x512 answer whose data cannot be decoded fails
      with the decoding error, and the endpoint is not asked again at 1024x1024. */
  lemma DecodeFailureNotRetried(prompt: string, quality: Option<string>, images: Images)
    requires images(prompt, SmallSize, ChooseQuality(quality)).DecodeFailed?
    ensures GenerateImageBytes(prompt, SmallSize, quality, images)
         == Failure(images(prompt, SmallSize, ChooseQuality(quality)).error)
  {
    assert ChooseSize(SmallSize) == SmallSize;
  }

  /** `generate_ai_cover_bytes` and `generate_ai_scene_bytes`: the bytes and the file name. */
  function GenerateBytes(kind: string, title: string, prompt: string, size: string, quality: Option<string>, images: Images): (r: Result<(seq<Byte>, string), string>)
    ensures r.Success? <==> GenerateImageBytes(prompt, size, quality, images).Success?
    ensures r.Success? ==> r.value.0 == GenerateImageBytes(prompt, size, quality, images).value
    ensures r.Success? ==> r.value.1 == Filename(kind, title, ChooseSize(size))
  {
    var data := GenerateImageBytes(prompt, size, quality, images);
    if data.Failure? then Failure(data.error) else Success((data.value, Filename(kind, title, ChooseSize(size))))
  }

  function GenerateCover(title: string, themes: Option<string>, size: string, quality: Option<string>, images: Images): Result<(seq<Byte>, string), string> {
    GenerateBytes("cover", title, BuildCoverPrompt(title, themes), size, quality, images)
  }

  function GenerateScene(title: string, scene: Option<string>, themes: Option<string>, size: string, quality: Option<string>, images: Images): Result<(seq<Byte>, string), string> {
    GenerateBytes("scene", title, BuildScenePrompt(title, scene, themes), size, quality, images)
  }

  /** When 512x512 is refused and the retry at 1024x1024 succeeds, the file name still says
      512x512: it is built from the requested size, not from the size actually generated. */
  lemma FilenameKeepsRequestedSize(kind: string, title: string, prompt: string, quality: Option<string>, images: Images)
    requires images(prompt, SmallSize, ChooseQuality(quality)).CallFailed?
    requires images(prompt, DefaultSize, ChooseQuality(quality)).Data?
    requires images(prompt, DefaultSize, ChooseQuality(quality)).bytes != []
    ensures GenerateBytes(kind, title, prompt, SmallSize, quality, images).Success?
    ensures GenerateBytes(kind, title, prompt, SmallSize, quality, images).value.1 == Filename(kind, title, SmallSize)
    ensures GenerateImageBytes(prompt, SmallSize, quality, images).value == images(prompt, DefaultSize, ChooseQuality(quality)).bytes
  {
    assert ChooseSize(SmallSize) == SmallSize;
  }
}
