/** The image carousel of an image message (src/components/ImageCarousel.jsx):
    wrap-around navigation over the message's images and the download
    request for the image on show. */
module ImageCarousel {
  import opened JsValues
  import opened ChatContext
  import ImageUtils

  /** Whether the carousel renders at all: not for absent or empty images. */
  predicate Renders(images: Option<seq<Image>>) {
    images.Some? && |images.value| > 0
  }

  /** `handlePrevious` on `n` images: back one, from the first to the last. */
  function Previous(i: int, n: int): (r: int)
    requires n > 0
    ensures 0 <= i < n ==> 0 <= r < n
    ensures i > 0 ==> r == i - 1
    ensures i <= 0 ==> r == n - 1
  {
    if i > 0 then i - 1 else n - 1
  }

  /** `handleNext` on `n` images: on one, from the last to the first. */
  function Next(i: int, n: int): (r: int)
    requires n > 0
    ensures 0 <= i < n ==> 0 <= r < n
    ensures i < n - 1 ==> r == i + 1
    ensures i >= n - 1 ==> r == 0
  {
    if i < n - 1 then i + 1 else 0
  }

  /** Next and previous undo each other. */
  lemma NextPreviousInverse(i: int, n: int)
    requires n > 0 && 0 <= i < n
    ensures Previous(Next(i, n), n) == i
    ensures Next(Previous(i, n), n) == i
  {
  }

  /** Both steps are rotations by one modulo `n`. */
  lemma StepsAreRotations(i: int, n: int)
    requires n > 0 && 0 <= i < n
    ensures Next(i, n) == (i + 1) % n
    ensures Previous(i, n) == (i + n - 1) % n
  {
    if i == n - 1 {
      ModUnique(i + 1, n, 1, 0);
    } else {
      ModUnique(i + 1, n, 0, i + 1);
    }
    if i == 0 {
      ModUnique(i + n - 1, n, 0, n - 1);
    } else {
      ModUnique(i + n - 1, n, 1, i - 1);
    }
  }

  /** `k` presses of the next button. */
  function NextTimes(i: int, n: int, k: nat): int
    requires n > 0
    decreases k
  {
    if k == 0 then i else Next(NextTimes(i, n, k - 1), n)
  }

  /** Pressing next `k` times moves `k` places round; `n` presses come back
      to the same image. */
  lemma {:induction false} NextTimesRotates(i: int, n: int, k: nat)
    requires n > 0 && 0 <= i < n
    ensures NextTimes(i, n, k) == (i + k) % n
    decreases k
  {
    if k > 0 {
      NextTimesRotates(i, n, k - 1);
      var j := NextTimes(i, n, k - 1);
      assert j == (i + (k - 1)) % n;
      assert NextTimes(i, n, k) == Next(j, n);
      StepsAreRotations(j, n);
      ModAddOne(i + (k - 1), n);
      assert (i + (k - 1)) + 1 == i + k;
    }
  }

  lemma ModAddOne(a: int, n: int)
    requires n > 0
    ensures (a % n + 1) % n == (a + 1) % n
  {
    var q := a / n;
    var r := a % n;
    if r + 1 < n {
      ModUnique(a + 1, n, q, r + 1);
      ModUnique(r + 1, n, 0, r + 1);
    } else {
      ModUnique(a + 1, n, q + 1, 0);
      ModUnique(r + 1, n, 1, 0);
    }
  }

  /** The remainder is the only one in range. */
  lemma ModUnique(a: int, n: int, q: int, r: int)
    requires n > 0 && 0 <= r < n && a == n * q + r
    ensures a % n == r
  {
    var q2 := a / n;
    var r2 := a % n;
    assert a == n * q2 + r2;
    if q > q2 {
      assert n * (q - q2) == n * q - n * q2;
      MulAtLeast(n, q - q2);
    } else if q < q2 {
      assert n * (q2 - q) == n * q2 - n * q;
      MulAtLeast(n, q2 - q);
    }
  }

  lemma {:induction false} MulAtLeast(n: int, d: int)
    requires n > 0 && d >= 1
    ensures n * d >= n
    decreases d
  {
    if d > 1 {
      MulAtLeast(n, d - 1);
      assert n * d == n * (d - 1) + n;
    }
  }

  /** The navigation buttons show only when there is more than one image. */
  predicate ShowsNavigation(images: seq<Image>) {
    |images| > 1
  }

  /** With a single image both buttons, were they pressed, would land on
      it: next from the image or after it, previous from the image or
      before it. */
  lemma SingleImageHasNowhereToGo(i: int)
    ensures i >= 0 ==> Next(i, 1) == 0
    ensures i < 0 ==> Next(i, 1) == i + 1
    ensures i <= 0 ==> Previous(i, 1) == 0
    ensures i > 0 ==> Previous(i, 1) == i - 1
  {
  }

  /** What `handleDownload` asks `downloadImage` for. */
  datatype DownloadRequest = NoDownload | DownloadAs(url: string, filename: string)

  /** `handleDownload` on the image at `index`, at time `nowMillis`: nothing
      without a url; the prompt's name when there is a prompt, else the
      fixed name. */
  function Download(images: seq<Image>, index: nat, promptText: Option<string>, nowMillis: int): (r: DownloadRequest)
    requires index < |images|
    ensures r.NoDownload? <==> images[index].url == ""
    ensures r.DownloadAs? ==> r.url == images[index].url
    ensures r.DownloadAs? && !Truthy(promptText) ==> r.filename == "maitey-image.png"
    ensures r.DownloadAs? && Truthy(promptText) ==>
      r.filename == ImageUtils.FilenameFromPrompt(promptText, nowMillis)
      && r.filename == "maitey-" + ImageUtils.Slug(promptText.value) + "-" + JsStrings.IntToString(nowMillis) + ".png"
  {
    var img := images[index];
    if img.url == "" then NoDownload
    else if Truthy(promptText) then DownloadAs(img.url, ImageUtils.FilenameFromPrompt(promptText, nowMillis))
    else DownloadAs(img.url, "maitey-image.png")
  }
}
