/**
 * GetVideoId: the video id of a YouTube URL, from the Host, AbsolutePath and
 * Query that System.Uri parses out of it (the parsing itself is not modelled).
 */
module VideoIds {
  import opened Wrappers
  import opened Text

  datatype Url = Url(host: string, absolutePath: string, query: string)

  datatype VideoIdError =
    | NoVideoIdFound   // "No video ID found."
    | PathTooShort     // the range index `[7..]` or `[1..]` past the end of AbsolutePath

  /** What the three URL shapes yield before truncation. */
  datatype Candidate = NoCandidate | OutOfRange | Found(raw: string)

  function RawCandidate(url: Url): (c: Candidate)
    ensures c != NoCandidate ==> Contains(url.host, "youtube.com") || Contains(url.host, "youtu.be")
    ensures c.OutOfRange? ==> |url.absolutePath| < 7
    ensures c.Found? ==> |c.raw| < |url.query| || |c.raw| < |url.absolutePath|
  {
    if Contains(url.host, "youtube.com") then
      if url.absolutePath == "/watch" then
        var lower := IndexOf(url.query, "v=");
        var veq := if lower == -1 then IndexOf(url.query, "V=") else lower;
        if veq >= 0 then Found(url.query[veq + 2..]) else NoCandidate
      else if StartsWith(url.absolutePath, "/embed") then
        if |url.absolutePath| < 7 then OutOfRange else Found(url.absolutePath[7..])
      else NoCandidate
    else if Contains(url.host, "youtu.be") then
      if |url.absolutePath| < 1 then OutOfRange else Found(url.absolutePath[1..])
    else NoCandidate
  }

  /** `if (s.Contains(c)) s = s[..s.IndexOf(c)];` */
  function CutAt(s: string, c: char): (r: string)
    ensures r <= s && NoChar(r, c)
    ensures r == s || s[|r|] == c
  {
    var k := IndexOf(s, [c]);
    if k >= 0 then
      OccursAtChar(s, c, k);
      assert forall j :: 0 <= j < k ==> s[j] != c by {
        forall j | 0 <= j < k ensures s[j] != c { OccursAtChar(s, c, j); }
      }
      s[..k]
    else
      assert forall j :: 0 <= j < |s| ==> s[j] != c by {
        forall j | 0 <= j < |s| ensures s[j] != c { OccursAtChar(s, c, j); }
      }
      s
  }

  /** The truncation at the first '&' and then at the first '?'. */
  function Truncate(raw: string): string {
    CutAt(CutAt(raw, '&'), '?')
  }

  /** The truncated id is the longest prefix of the raw text holding neither '&' nor '?'. */
  lemma TruncateIsLongestClean(raw: string)
    ensures var r := Truncate(raw);
      && r <= raw && NoChar(r, '&') && NoChar(r, '?')
      && (r == raw || raw[|r|] == '&' || raw[|r|] == '?')
  {
    var a := CutAt(raw, '&');
    var r := CutAt(a, '?');
    assert NoChar(r, '&') by {
      forall k | 0 <= k < |r| ensures r[k] != '&' { assert r[k] == a[k]; }
    }
    if r != raw && r == a {
      assert raw[|a|] == '&';
    } else if r != raw {
      assert raw[|r|] == a[|r|];
    }
  }

  lemma CleanUnchanged(s: string)
    requires NoChar(s, '&') && NoChar(s, '?')
    ensures Truncate(s) == s
  {
  }

  /** Truncating twice changes nothing more. */
  lemma TruncateIdempotent(raw: string)
    ensures Truncate(Truncate(raw)) == Truncate(raw)
  {
    TruncateIsLongestClean(raw);
    CleanUnchanged(Truncate(raw));
  }

  function GetVideoId(url: Url): (r: Result<string, VideoIdError>)
    ensures r == Failure(NoVideoIdFound) <==> RawCandidate(url) == NoCandidate
    ensures r == Failure(PathTooShort) <==> RawCandidate(url) == OutOfRange
    ensures r.Success? ==> var raw := RawCandidate(url).raw;
      && r.value <= raw && NoChar(r.value, '&') && NoChar(r.value, '?')
      && (r.value == raw || raw[|r.value|] == '&' || raw[|r.value|] == '?')
  {
    match RawCandidate(url)
    case NoCandidate => Failure(NoVideoIdFound)
    case OutOfRange => Failure(PathTooShort)
    case Found(raw) =>
      TruncateIsLongestClean(raw);
      Success(Truncate(raw))
  }

  // ---------------------------------------------------------------- the three supported shapes

  /** An id as YouTube issues it carries neither '&' nor '?'. */
  predicate PlainId(id: string) {
    NoChar(id, '&') && NoChar(id, '?')
  }

  /** https://<host>/watch?v=<id>&<more>, on any host containing "youtube.com", yields <id>. */
  lemma WatchUrlRoundTrip(host: string, id: string, more: string)
    requires Contains(host, "youtube.com") && PlainId(id)
    ensures GetVideoId(Url(host, "/watch", "?v=" + id + "&" + more)) == Success(id)
  {
    var q := "?v=" + id + "&" + more;
    assert q[0..2][0] != 'v' && !OccursAt(q, "v=", 0);
    assert q[1..3] == "v=" && OccursAt(q, "v=", 1);
    assert IndexOf(q, "v=") == 1;
    assert q[3..] == id + "&" + more;
    TruncateAtAmpersand(id, more);
  }

  /** https://<host>/watch?v=<id>, the canonical form with no further parameter, yields <id>. */
  lemma WatchPlainUrl(host: string, id: string)
    requires Contains(host, "youtube.com") && PlainId(id)
    ensures GetVideoId(Url(host, "/watch", "?v=" + id)) == Success(id)
  {
    var q := "?v=" + id;
    assert q[0..2][0] != 'v' && !OccursAt(q, "v=", 0);
    assert q[1..3] == "v=" && OccursAt(q, "v=", 1);
    assert IndexOf(q, "v=") == 1;
    assert q[3..] == id;
    CleanUnchanged(id);
  }

  /** On a /watch path the text after the first "v=" of the query, truncated, is the id. */
  lemma WatchLowerCaseKey(host: string, q: string, j: nat)
    requires Contains(host, "youtube.com")
    requires OccursAt(q, "v=", j) && forall i :: 0 <= i < j ==> !OccursAt(q, "v=", i)
    ensures GetVideoId(Url(host, "/watch", q)) == Success(Truncate(q[j + 2..]))
  {
    FirstOccurrence(q, "v=", j);
    TruncateIsLongestClean(q[j + 2..]);
  }

  /** A /watch query without "v=" falls back to the first "V=", and the text after it, truncated, is the id. */
  lemma WatchUpperCaseFallback(host: string, q: string, j: nat)
    requires Contains(host, "youtube.com")
    requires forall i :: !OccursAt(q, "v=", i)
    requires OccursAt(q, "V=", j) && forall i :: 0 <= i < j ==> !OccursAt(q, "V=", i)
    ensures GetVideoId(Url(host, "/watch", q)) == Success(Truncate(q[j + 2..]))
  {
    NoOccurrence(q, "v=");
    FirstOccurrence(q, "V=", j);
    TruncateIsLongestClean(q[j + 2..]);
  }

  /** A /watch query holding neither "v=" nor "V=" yields "No video ID found.". */
  lemma WatchWithoutKeyHasNoId(host: string, q: string)
    requires Contains(host, "youtube.com")
    requires forall i :: !OccursAt(q, "v=", i) && !OccursAt(q, "V=", i)
    ensures GetVideoId(Url(host, "/watch", q)) == Failure(NoVideoIdFound)
  {
    NoOccurrence(q, "v=");
    NoOccurrence(q, "V=");
  }

  lemma FirstOccurrence(s: string, pat: string, j: nat)
    requires OccursAt(s, pat, j) && forall i :: 0 <= i < j ==> !OccursAt(s, pat, i)
    ensures IndexOf(s, pat) == j
  {
  }

  lemma NoOccurrence(s: string, pat: string)
    requires forall i :: !OccursAt(s, pat, i)
    ensures IndexOf(s, pat) == -1
  {
  }

  /** A plain id followed by '&' is cut back to the id. */
  lemma TruncateAtAmpersand(id: string, rest: string)
    requires PlainId(id)
    ensures Truncate(id + "&" + rest) == id
  {
    var raw := id + "&" + rest;
    assert raw[|id|] == '&';
    TruncateIsLongestClean(raw);
    var r := Truncate(raw);
    assert r == raw[..|r|] == id;
  }

  /** https://<host>/embed/<id>, on any host containing "youtube.com", yields <id>. */
  lemma EmbedUrlRoundTrip(host: string, id: string)
    requires Contains(host, "youtube.com") && PlainId(id)
    ensures GetVideoId(Url(host, "/embed/" + id, "")) == Success(id)
  {
    var path := "/embed/" + id;
    assert path[..6] == "/embed";
    assert path[7..] == id;
    CleanUnchanged(id);
  }

  /** https://youtu.be/<id> yields <id>: a host containing "youtu.be" but not "youtube.com". */
  lemma ShortUrlRoundTrip(host: string, id: string)
    requires Contains(host, "youtu.be") && !Contains(host, "youtube.com") && PlainId(id)
    ensures GetVideoId(Url(host, "/" + id, "")) == Success(id)
  {
    assert ("/" + id)[1..] == id;
    CleanUnchanged(id);
  }

  /** "v=" is matched anywhere in the query, here inside a parameter named "dev". */
  lemma WatchMatchesInsideAnotherParameter(host: string, value: string, id: string)
    requires Contains(host, "youtube.com") && PlainId(value)
    ensures GetVideoId(Url(host, "/watch", "?dev=" + value + "&v=" + id)) == Success(value)
  {
    DevQueryMatch(value, id);
    TruncateAtAmpersand(value, "v=" + id);
    assert value + "&v=" + id == value + "&" + ("v=" + id);
  }

  lemma DevQueryMatch(value: string, id: string)
    ensures var q := "?dev=" + value + "&v=" + id;
      IndexOf(q, "v=") == 3 && q[5..] == value + "&v=" + id
  {
    var q := "?dev=" + value + "&v=" + id;
    assert q[0..2][0] != 'v' && q[1..3][0] != 'v' && q[2..4][1] != '=';
    assert !OccursAt(q, "v=", 0) && !OccursAt(q, "v=", 1) && !OccursAt(q, "v=", 2);
    assert q[3..5] == "v=" && OccursAt(q, "v=", 3);
  }

  /** A path of exactly "/embed" fails on the range index rather than with "No video ID found.". */
  lemma BareEmbedPathIsOutOfRange(host: string)
    requires Contains(host, "youtube.com")
    ensures GetVideoId(Url(host, "/embed", "")) == Failure(PathTooShort)
  {
    assert "/embed"[..6] == "/embed";
  }

  /** A host containing "youtube.com" with any other path yields "No video ID found.". */
  lemma OtherPathHasNoId(host: string, path: string, query: string)
    requires Contains(host, "youtube.com") && path != "/watch" && !StartsWith(path, "/embed")
    ensures GetVideoId(Url(host, path, query)) == Failure(NoVideoIdFound)
  {
  }

  /** The concrete hosts of the three shapes. */
  lemma KnownHosts()
    ensures Contains("www.youtube.com", "youtube.com")
    ensures Contains("youtu.be", "youtu.be")
  {
    ContainsInside("www.", "youtube.com", "");
    assert "www." + "youtube.com" + "" == "www.youtube.com";
    ContainsInside("", "youtu.be", "");
    assert "" + "youtu.be" + "" == "youtu.be";
  }

  lemma ContainsInside(a: string, pat: string, b: string)
    ensures Contains(a + pat + b, pat)
  {
    var s := a + pat + b;
    assert s[|a|..|a| + |pat|] == pat;
    assert OccursAt(s, pat, |a|);
  }
}
