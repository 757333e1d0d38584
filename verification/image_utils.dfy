/** The image helpers of src/utils/imageUtils.js: the download-name
    derivation from a prompt, prompt shortening for previews, and the
    dispatch of `downloadImage` on its source. */
module ImageUtils {
  import opened JsValues
  import opened JsStrings

  // ---------------------------------------------------------------------
  // downloadImage

  /** What `downloadImage` is handed: a URL string, a Blob (by identity),
      or anything else. */
  datatype Source = UrlSource(url: string) | BlobSource(blob: int) | OtherSource

  /** What `downloadImage` does: fetch the URL and save the body, save the
      blob directly, or throw. */
  datatype DownloadPlan = FetchAndSave(url: string, filename: string) | Save(blob: int, filename: string) | Throws(message: string)

  const DefaultDownloadName := "maitey-image.png"

  /** `downloadImage(imageSource, filename = 'maitey-image.png')`; an
      absent `filename` takes the default. */
  function DownloadImage(source: Source, filename: Option<string>): (r: DownloadPlan)
    ensures r.Throws? <==> source.OtherSource?
    ensures r.Throws? ==> r.message == "Invalid image source"
    ensures r.FetchAndSave? ==> source == UrlSource(r.url)
    ensures r.Save? ==> source == BlobSource(r.blob)
    ensures !r.Throws? ==> r.filename == if filename.Some? then filename.value else DefaultDownloadName
  {
    var name := filename.GetOr(DefaultDownloadName);
    match source
    case UrlSource(u) => FetchAndSave(u, name)
    case BlobSource(b) => Save(b, name)
    case OtherSource => Throws("Invalid image source")
  }

  // ---------------------------------------------------------------------
  // shortenPrompt

  const DefaultPreviewLength := 50

  /** `shortenPrompt(promptText, maxLength)`: an absent or empty prompt
      gives '', a prompt whose UTF-16 length fits is kept, a longer one is
      cut to its first `maxLength - 3` code units followed by an ellipsis. */
  function ShortenPrompt(promptText: Option<string>, maxLength: int): (r: string)
    ensures !Truthy(promptText) ==> r == ""
    ensures Truthy(promptText) && Length(promptText.value) <= maxLength ==> r == promptText.value
    ensures Truthy(promptText) && Length(promptText.value) > maxLength ==>
      && |r| >= 3 && r[|r| - 3..] == "..."
      && r[..|r| - 3] <= promptText.value
      && Length(r) <= (if maxLength >= 3 then maxLength else 3)
      && (maxLength >= 3 ==> maxLength - 1 <= Length(r))
  {
    if !Truthy(promptText) then ""
    else if Length(promptText.value) <= maxLength then promptText.value
    else
      var p := Prefix(promptText.value, maxLength - 3);
      EllipsisAfter(promptText.value, maxLength);
      p + "..."
  }

  /** The cut prefix followed by `...`: the prefix reads back, and the
      whole is at most the limit (or 3) and, for a limit of at least 3, at
      least one less than the limit. */
  lemma EllipsisAfter(v: string, maxLength: int)
    requires Length(v) > maxLength
    ensures var p := Prefix(v, maxLength - 3);
      && (p + "...")[..|p|] == p
      && Length(p + "...") <= (if maxLength >= 3 then maxLength else 3)
      && (maxLength >= 3 ==> maxLength - 1 <= Length(p + "..."))
  {
    var p := Prefix(v, maxLength - 3);
    assert (p + "...")[..|p|] == p;
    LengthAppend(p, "...");
    assert InBmp("...");
    if maxLength >= 3 {
      PrefixShortByAtMostOne(v, maxLength - 3);
    }
  }

  /** For a limit of at least three, a shortened prompt fits the limit, and
      shortening it again changes nothing. */
  lemma ShortenPromptFitsAndIsStable(promptText: Option<string>, maxLength: int)
    requires maxLength >= 3
    ensures Length(ShortenPrompt(promptText, maxLength)) <= maxLength
    ensures var r := ShortenPrompt(promptText, maxLength);
      ShortenPrompt(Some(r), maxLength) == r
  {
  }

  // ---------------------------------------------------------------------
  // generateFilenameFromPrompt

  /** The characters `[a-z0-9-]` the download name may contain. */
  predicate IsSlugChar(c: char) {
    ('a' <= c <= 'z') || ('0' <= c <= '9') || c == '-'
  }

  predicate AllSlugChars(s: string) {
    forall i :: 0 <= i < |s| ==> IsSlugChar(s[i])
  }

  /** No two hyphens in a row. */
  predicate NoDoubleDash(s: string) {
    forall i :: 0 <= i < |s| - 1 ==> !(s[i] == '-' && s[i + 1] == '-')
  }

  predicate NoEdgeDash(s: string) {
    |s| > 0 ==> s[0] != '-' && s[|s| - 1] != '-'
  }

  /** What the name is built from: a non-empty string of `[a-z0-9-]` with no
      doubled and no leading or trailing hyphen, or the empty string. */
  predicate IsSlug(s: string) {
    AllSlugChars(s) && NoDoubleDash(s) && NoEdgeDash(s)
  }

  /** The first three space-separated words joined by hyphens. */
  function FirstWords(promptText: string): string {
    Join(Take(Split(promptText, ' '), 3), '-')
  }

  /** `.replace(/[^a-z0-9-]/g, '-')` on one character. */
  function SlugChar(c: char): (r: char)
    ensures IsSlugChar(r)
    ensures IsSlugChar(c) ==> r == c
  {
    if IsSlugChar(c) then c else '-'
  }

  predicate NotDash(c: char) {
    c != '-'
  }

  /** `.replace(/-+/g, '-')`: every run of hyphens becomes one hyphen. The
      other characters are kept, in order. */
  function Collapse(s: string): (r: string)
    ensures |r| <= |s|
    ensures |s| > 0 ==> |r| > 0 && r[0] == s[0] && r[|r| - 1] == s[|s| - 1]
    decreases |s|
  {
    if |s| <= 1 then s
    else if s[0] == '-' && s[1] == '-' then Collapse(s[1..])
    else [s[0]] + Collapse(s[1..])
  }

  /** The collapse leaves no two hyphens in a row. */
  lemma {:induction false} CollapseNoDoubleDash(s: string)
    ensures NoDoubleDash(Collapse(s))
    decreases |s|
  {
    if |s| > 1 {
      CollapseNoDoubleDash(s[1..]);
      if !(s[0] == '-' && s[1] == '-') {
        var rest := Collapse(s[1..]);
        var r := [s[0]] + rest;
        forall i | 0 <= i < |r| - 1 ensures !(r[i] == '-' && r[i + 1] == '-') {
          if i > 0 {
            assert r[i] == rest[i - 1] && r[i + 1] == rest[i];
          }
        }
      }
    }
  }

  /** The collapse keeps a string within `[a-z0-9-]`. */
  lemma {:induction false} CollapseKeepsSlugChars(s: string)
    requires AllSlugChars(s)
    ensures AllSlugChars(Collapse(s))
    decreases |s|
  {
    if |s| > 1 {
      assert AllSlugChars(s[1..]);
      CollapseKeepsSlugChars(s[1..]);
      if !(s[0] == '-' && s[1] == '-') {
        var rest := Collapse(s[1..]);
        var r := [s[0]] + rest;
        forall i | 0 <= i < |r| ensures IsSlugChar(r[i]) {
          if i > 0 {
            assert r[i] == rest[i - 1];
          }
        }
      }
    }
  }

  /** Only hyphens are removed: the other characters are all kept, in
      order. */
  lemma {:induction false} CollapseKeepsOthers(s: string)
    ensures Filter(Collapse(s), NotDash) == Filter(s, NotDash)
    decreases |s|
  {
    if |s| > 1 {
      CollapseKeepsOthers(s[1..]);
      var head := Filter([s[0]], NotDash);
      assert Filter(s, NotDash) == head + Filter(s[1..], NotDash) by {
        assert s == [s[0]] + s[1..];
        FilterAppend([s[0]], s[1..], NotDash);
      }
      if !(s[0] == '-' && s[1] == '-') {
        FilterAppend([s[0]], Collapse(s[1..]), NotDash);
      }
    }
  }

  /** `.replace(/^-|-$/g, '')`: one hyphen off each end. */
  function StripDashes(s: string): (r: string)
    ensures NoDoubleDash(s) ==> NoEdgeDash(r) && NoDoubleDash(r)
    ensures AllSlugChars(s) ==> AllSlugChars(r)
    ensures NoEdgeDash(s) ==> r == s
  {
    var a := if |s| > 0 && s[0] == '-' then s[1..] else s;
    if |a| > 0 && a[|a| - 1] == '-' then a[..|a| - 1] else a
  }

  /** The sanitised middle of the download name. */
  function Slug(promptText: string): string {
    StripDashes(Collapse(MapChars(MapChars(FirstWords(promptText), ToLowerChar), SlugChar)))
  }

  /** `generateFilenameFromPrompt(promptText)` at time `nowMillis`
      (`Date.now()`). */
  function FilenameFromPrompt(promptText: Option<string>, nowMillis: int): string {
    if !Truthy(promptText) then "maitey-image-" + IntToString(nowMillis) + ".png"
    else "maitey-" + Slug(promptText.value) + "-" + IntToString(nowMillis) + ".png"
  }

  /** The sanitised middle is made of `[a-z0-9-]`, with no doubled,
      leading or trailing hyphen. */
  lemma SlugIsSlug(promptText: string)
    ensures IsSlug(Slug(promptText))
  {
    var m := MapChars(MapChars(FirstWords(promptText), ToLowerChar), SlugChar);
    CollapseNoDoubleDash(m);
    CollapseKeepsSlugChars(m);
  }

  /** Sanitising leaves an already sanitised name unchanged. */
  lemma SlugOfSlug(s: string)
    requires IsSlug(s)
    ensures Slug(s) == s
  {
    assert ' ' !in s;
    SplitWithoutSep(s, ' ');
    assert MapChars(s, ToLowerChar) == s;
    assert MapChars(s, SlugChar) == s;
    CollapseKeepsSingleDashes(s);
  }

  /** Sanitising is idempotent. */
  lemma SlugIdempotent(promptText: string)
    ensures Slug(Slug(promptText)) == Slug(promptText)
  {
    SlugIsSlug(promptText);
    SlugOfSlug(Slug(promptText));
  }

  /** A string with no doubled hyphen is left as it is by the collapse. */
  lemma {:induction false} CollapseKeepsSingleDashes(s: string)
    requires NoDoubleDash(s)
    ensures Collapse(s) == s
    decreases |s|
  {
    if |s| > 1 {
      assert NoDoubleDash(s[1..]);
      CollapseKeepsSingleDashes(s[1..]);
      assert [s[0]] + s[1..] == s;
    }
  }

  /** Only the first three words of the prompt reach the name: words after
      the third are ignored. */
  lemma SlugIgnoresLaterWords(promptText: string, more: string)
    requires |Split(promptText, ' ')| >= 3
    ensures Slug(promptText + " " + more) == Slug(promptText)
  {
    SplitAppend(promptText, more, ' ');
    assert promptText + " " + more == promptText + [' '] + more;
    var ws := Split(promptText, ' ');
    assert Take(ws + Split(more, ' '), 3) == Take(ws, 3);
  }

  /** The name reads `maitey-<slug>-<time>.png`, or `maitey-image-<time>.png`
      without a prompt; the time is given in full and reads back. */
  lemma FilenameLayout(promptText: Option<string>, nowMillis: int)
    ensures var f := FilenameFromPrompt(promptText, nowMillis);
      var middle := if Truthy(promptText) then Slug(promptText.value) else "image";
      && f == "maitey-" + middle + "-" + IntToString(nowMillis) + ".png"
      && IsSlug(middle)
      && ParseInt(IntToString(nowMillis) + ".png") == Some(nowMillis)
  {
    var t := IntToString(nowMillis);
    if Truthy(promptText) {
      SlugIsSlug(promptText.value);
    } else {
      assert "maitey-image-" + t + ".png" == "maitey-" + "image" + "-" + t + ".png" by {
        assert "maitey-image-" == "maitey-" + "image" + "-";
      }
      assert IsSlug("image") by {
        assert forall i :: 0 <= i < 5 ==> "image"[i] != '-';
      }
    }
    ParseIntOfIntToString(nowMillis, ".png");
  }
}
