/** The force-download link behind the page's "Download QR Code" button
    (`handleDownload` in front-end-nextjs/src/app/page.js).

    The page rewrites the hosted image URL with JavaScript's
    `String.prototype.replace` called with a string pattern: only the FIRST
    occurrence of `/upload/` becomes `/upload/fl_attachment/`, and a URL
    without `/upload/` is returned unchanged. The link it then clicks has the
    rewritten URL as `href` and `qr-code.png` as `download` attribute. */
module DownloadLink {
  import opened Wrappers

  /** The path segment the image host serves inline. */
  const Upload: string := "/upload/"
  /** The same segment with the host's force-download flag. */
  const Attachment: string := "/upload/fl_attachment/"
  /** What the rewrite inserts right after the first `/upload/`. */
  const AttachmentFlag: string := "fl_attachment/"
  /** The suggested file name of the download. */
  const DownloadFileName: string := "qr-code.png"

  /** `pat` occurs in `s` starting at index `i`. */
  predicate OccursAt(s: string, pat: string, i: nat)
  {
    i + |pat| <= |s| && s[i..i + |pat|] == pat
  }

  /** `pat` occurs somewhere in `s`. */
  predicate Contains(s: string, pat: string)
  {
    exists i: nat | i <= |s| :: OccursAt(s, pat, i)
  }

  /** The least index at or after `from` where `pat` occurs in `s`, the way
      JavaScript's `indexOf` searches left to right. */
  function IndexOfFrom(s: string, pat: string, from: nat): (r: Option<nat>)
    decreases |s| - from
    ensures r.Some? ==> from <= r.value && OccursAt(s, pat, r.value)
    ensures r.Some? ==> forall j: nat :: from <= j < r.value ==> !OccursAt(s, pat, j)
    ensures r.None? ==> forall j: nat :: from <= j ==> !OccursAt(s, pat, j)
  {
    if |s| < from + |pat| then None
    else if s[from..from + |pat|] == pat then Some(from)
    else IndexOfFrom(s, pat, from + 1)
  }

  /** The index of the first occurrence of `pat` in `s`, if any. */
  function IndexOf(s: string, pat: string): (r: Option<nat>)
    ensures r.Some? <==> Contains(s, pat)
    ensures r.Some? ==> OccursAt(s, pat, r.value)
    ensures r.Some? ==> forall j: nat :: j < r.value ==> !OccursAt(s, pat, j)
  {
    IndexOfFrom(s, pat, 0)
  }

  /** `s.replace(pat, rep)` for a string `pat` and a replacement without `$`
      patterns: the first occurrence of `pat` is replaced, nothing else. */
  function ReplaceFirst(s: string, pat: string, rep: string): (r: string)
    ensures !Contains(s, pat) ==> r == s
    ensures Contains(s, pat) ==> |r| == |s| - |pat| + |rep|
  {
    match IndexOf(s, pat)
    case None => s
    case Some(i) => s[..i] + rep + s[i + |pat|..]
  }

  /** Independent characterisation of `ReplaceFirst`: when `s` splits as
      `p + pat + q` and `pat` does not start anywhere inside `p`, the result
      is `p + rep + q`. */
  lemma ReplaceFirstAtSplit(s: string, pat: string, rep: string, p: string, q: string)
    requires s == p + pat + q
    requires forall j: nat :: j < |p| ==> !OccursAt(s, pat, j)
    ensures ReplaceFirst(s, pat, rep) == p + rep + q
  {
    assert OccursAt(s, pat, |p|) by {
      assert s[|p|..|p| + |pat|] == pat;
    }
    assert Contains(s, pat);
    var i := IndexOf(s, pat).value;
    assert i == |p|;
    assert s[..i] == p;
    assert s[i + |pat|..] == q;
  }

  /** When `pat` does not occur, `ReplaceFirst` returns its input unchanged
      and raises nothing. */
  lemma ReplaceFirstAbsent(s: string, pat: string, rep: string)
    requires !Contains(s, pat)
    ensures ReplaceFirst(s, pat, rep) == s
  {
  }

  /** The URL the download link points at (page.js line 44). */
  function DeriveDownloadUrl(qrCodeUrl: string): (r: string)
    ensures r == qrCodeUrl <==> !Contains(qrCodeUrl, Upload)
  {
    var r := ReplaceFirst(qrCodeUrl, Upload, Attachment);
    assert Contains(qrCodeUrl, Upload) ==> |r| == |qrCodeUrl| + |AttachmentFlag|;
    r
  }

  /** With `/upload/` present, the derived URL is the text before its first
      occurrence, then `/upload/fl_attachment/`, then everything after that
      first occurrence, later occurrences included. */
  lemma DeriveWhenPresent(qrCodeUrl: string, before: string, after: string)
    requires qrCodeUrl == before + Upload + after
    requires forall j: nat :: j < |before| ==> !OccursAt(qrCodeUrl, Upload, j)
    ensures DeriveDownloadUrl(qrCodeUrl) == before + Attachment + after
  {
    ReplaceFirstAtSplit(qrCodeUrl, Upload, Attachment, before, after);
  }

  /** Without `/upload/`, the derived URL is the input exactly. */
  lemma DeriveWhenAbsent(qrCodeUrl: string)
    requires !Contains(qrCodeUrl, Upload)
    ensures DeriveDownloadUrl(qrCodeUrl) == qrCodeUrl
  {
  }

  /** With `/upload/` first occurring at `i`, the rewrite is an insertion of
      `fl_attachment/` right after it: the derived URL is 14 characters
      longer, keeps the input through the end of that `/upload/` verbatim,
      and ends with the rest of the input verbatim. */
  lemma DeriveInsertsFlag(qrCodeUrl: string)
    requires Contains(qrCodeUrl, Upload)
    ensures var i := IndexOf(qrCodeUrl, Upload).value;
            var r := DeriveDownloadUrl(qrCodeUrl);
            && |r| == |qrCodeUrl| + 14
            && r[..i + |Upload|] == qrCodeUrl[..i + |Upload|]
            && r[i + |Upload|..i + |Attachment|] == AttachmentFlag
            && r[i + |Attachment|..] == qrCodeUrl[i + |Upload|..]
  {
    var i := IndexOf(qrCodeUrl, Upload).value;
    var r := DeriveDownloadUrl(qrCodeUrl);
    assert r == qrCodeUrl[..i] + Attachment + qrCodeUrl[i + |Upload|..];
    assert qrCodeUrl[i..i + |Upload|] == Upload;
    assert Attachment == Upload + AttachmentFlag;
    assert r[..i + |Upload|] == qrCodeUrl[..i] + Upload;
    assert qrCodeUrl[..i + |Upload|] == qrCodeUrl[..i] + qrCodeUrl[i..i + |Upload|];
  }

  /** Removing the inserted flag gives the input back. */
  lemma DeriveUndo(qrCodeUrl: string)
    requires Contains(qrCodeUrl, Upload)
    ensures var k := IndexOf(qrCodeUrl, Upload).value + |Upload|;
            var r := DeriveDownloadUrl(qrCodeUrl);
            r[..k] + r[k + |AttachmentFlag|..] == qrCodeUrl
  {
    DeriveInsertsFlag(qrCodeUrl);
    var k := IndexOf(qrCodeUrl, Upload).value + |Upload|;
    assert qrCodeUrl == qrCodeUrl[..k] + qrCodeUrl[k..];
  }

  /** A string that agrees with `b` up to the end of `b`'s first
      occurrence of `pat` has its first occurrence at the same index. */
  lemma IndexOfSamePrefix(a: string, b: string, pat: string, i: nat)
    requires IndexOf(b, pat) == Some(i)
    requires i + |pat| <= |a| && a[..i + |pat|] == b[..i + |pat|]
    ensures IndexOf(a, pat) == Some(i)
  {
    var n := i + |pat|;
    forall j: nat | j <= i
      ensures OccursAt(a, pat, j) == OccursAt(b, pat, j)
    {
      assert a[j..j + |pat|] == a[..n][j..j + |pat|];
      assert b[j..j + |pat|] == b[..n][j..j + |pat|];
    }
    assert OccursAt(a, pat, i);
  }

  /** The rewrite leaves the first `/upload/` where it was, so the derived
      URL's first `/upload/` is at the same index as the input's. */
  lemma DeriveKeepsFirstUpload(qrCodeUrl: string)
    ensures IndexOf(DeriveDownloadUrl(qrCodeUrl), Upload) == IndexOf(qrCodeUrl, Upload)
  {
    if Contains(qrCodeUrl, Upload) {
      var i := IndexOf(qrCodeUrl, Upload).value;
      DeriveInsertsFlag(qrCodeUrl);
      IndexOfSamePrefix(DeriveDownloadUrl(qrCodeUrl), qrCodeUrl, Upload, i);
    }
  }

  /** The link the download button clicks (page.js lines 44-47). */
  datatype Link = Link(href: string, filename: string)

  function DownloadLinkFor(qrCodeUrl: string): (l: Link)
    ensures l.filename == "qr-code.png"
    ensures l.href == qrCodeUrl <==> !Contains(qrCodeUrl, Upload)
  {
    Link(DeriveDownloadUrl(qrCodeUrl), DownloadFileName)
  }

  /** `pat` cannot start before index `n` of `s` when its second character
      does not appear among the first `n + 1` characters of `s`. */
  lemma NoOccurrenceBefore(s: string, pat: string, n: nat)
    requires 2 <= |pat| && n < |s|
    requires pat[1] !in s[..n + 1]
    ensures forall j: nat :: j < n ==> !OccursAt(s, pat, j)
  {
    forall j: nat | j < n
      ensures !OccursAt(s, pat, j)
    {
      assert s[j + 1] == s[..n + 1][j + 1];
      assert j + |pat| <= |s| ==> s[j..j + |pat|][1] == s[j + 1];
    }
  }

  /** An image hosted under `https://cdn.example.com/upload/`: only that
      `/upload/` changes, whatever the file part holds. */
  lemma DeriveCdnExample(host: string, file: string)
    requires host == "https://cdn.example.com"
    ensures DeriveDownloadUrl(host + Upload + file) == host + "/upload/fl_attachment/" + file
  {
    var s := host + Upload + file;
    assert 'u' !in host + "/";
    assert s[..|host| + 1] == host + "/";
    NoOccurrenceBefore(s, Upload, |host|);
    DeriveWhenPresent(s, host, file);
  }

  /** A URL without `/upload/` is left as it is. */
  lemma DeriveNoUploadExample(s: string)
    requires s == "https://cdn.example.com/img/abc.png"
    ensures DeriveDownloadUrl(s) == s
  {
    assert 'u' !in s;
    assert s[..|s|] == s;
    NoOccurrenceBefore(s, Upload, |s| - 1);
  }
}
