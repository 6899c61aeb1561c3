/**
 * The code input box (components/CodeInput.tsx): the detector for a
 * GitHub file-view link, the rewrite of such a link to its raw-content
 * URL, and the box's buffer and fetching flag.
 */
module CodeInput {
  import opened Wrappers
  import opened Strings

  const GithubHost := "github.com"
  const RawHost := "raw.githubusercontent.com"

  // ----- the detector: /^https?:\/\/(www\.)?github\.com\/[\w-]+\/[\w-]+\/blob\/.+/ -----

  /** `\w`: ASCII letters, digits and the underscore. */
  predicate IsWordChar(c: char) {
    ('A' <= c <= 'Z') || ('a' <= c <= 'z') || ('0' <= c <= '9') || c == '_'
  }

  /** `[\w-]`, the characters of an owner or repository name. */
  predicate IsSegmentChar(c: char) {
    IsWordChar(c) || c == '-'
  }

  /** The characters `.` does not match when the `s` flag is absent. */
  predicate IsLineTerminator(c: char) {
    c == '\n' || c == '\r' || c as int == 0x2028 || c as int == 0x2029
  }

  predicate IsSegment(w: string) {
    |w| > 0 && forall k :: 0 <= k < |w| ==> IsSegmentChar(w[k])
  }

  /** The parts of a file-view link; `rest` is everything after `/blob/`. */
  datatype BlobLink = BlobLink(secure: bool, www: bool, owner: string, repo: string, rest: string)

  function Origin(secure: bool, www: bool): string {
    (if secure then "https://" else "http://") + (if www then "www." else "")
  }

  function LinkText(l: BlobLink): string {
    Origin(l.secure, l.www) + "github.com/" + l.owner + "/" + l.repo + "/blob/" + l.rest
  }

  /**
   * What the pattern asks of the parts: non-empty names over `[\w-]`, and at
   * least one character other than a line terminator after `/blob/` (there
   * is no end anchor, so anything may follow that character).
   */
  predicate WellFormed(l: BlobLink) {
    IsSegment(l.owner) && IsSegment(l.repo) && |l.rest| > 0 && !IsLineTerminator(l.rest[0])
  }

  /**
   * The raw-content URL the comment in fetchGithubCode aims at. The comment
   * shows no `www.`; keeping it here extends the comment to that case.
   */
  function RawLinkText(l: BlobLink): string {
    Origin(l.secure, l.www) + RawHost + "/" + l.owner + "/" + l.repo + "/" + l.rest
  }

  /** The length of the longest prefix of `s` made of `[\w-]`. */
  function SegmentLen(s: string): (n: nat)
    ensures n <= |s|
    ensures forall k :: 0 <= k < n ==> IsSegmentChar(s[k])
    ensures n < |s| ==> !IsSegmentChar(s[n])
  {
    if s != [] && IsSegmentChar(s[0]) then 1 + SegmentLen(s[1..]) else 0
  }

  /**
   * The pattern, matched left to right.  Its choices are forced: `s?` and
   * `(www\.)?` are decided by the next character, and since `/` is not in
   * `[\w-]`, each name is the whole run of name characters before the next
   * `/`.  A parse that succeeds returns the parts of the string it read.
   */
  function ParseBlobLink(s: string): (r: Option<BlobLink>)
    ensures r.Some? ==> WellFormed(r.value) && LinkText(r.value) == s
  {
    if StartsWith(s, "https://") then
      assert s == "https://" + s[8..];
      ParseHost(true, s[8..])
    else if StartsWith(s, "http://") then
      assert s == "http://" + s[7..];
      ParseHost(false, s[7..])
    else None
  }

  /** The pattern after the scheme. */
  function ParseHost(secure: bool, a: string): (r: Option<BlobLink>)
    ensures r.Some? ==> WellFormed(r.value) && LinkText(r.value) == Origin(secure, false) + a
  {
    if StartsWith(a, "www.") then
      OriginWww(secure, a[4..]);
      assert a == "www." + a[4..];
      ParsePath(secure, true, a[4..])
    else ParsePath(secure, false, a)
  }

  lemma OriginWww(secure: bool, b: string)
    ensures Origin(secure, false) + ("www." + b) == Origin(secure, true) + b
  {
  }

  /** The pattern after the optional `www.`. */
  function ParsePath(secure: bool, www: bool, b: string): (r: Option<BlobLink>)
    ensures r.Some? ==> WellFormed(r.value) && LinkText(r.value) == Origin(secure, www) + b
  {
    if StartsWith(b, "github.com/") then
      assert b == "github.com/" + b[11..];
      ParseOwner(secure, www, b[11..])
    else None
  }

  /** The pattern after `github.com/`. */
  function ParseOwner(secure: bool, www: bool, c: string): (r: Option<BlobLink>)
    ensures r.Some? ==> WellFormed(r.value) && LinkText(r.value) == Origin(secure, www) + "github.com/" + c
  {
    var n := SegmentLen(c);
    if n == 0 || n == |c| || c[n] != '/' then None
    else
      assert c == c[..n] + "/" + c[n + 1..];
      ParseRepo(secure, www, c[..n], c[n + 1..])
  }

  /** The pattern after the owner and its `/`. */
  function ParseRepo(secure: bool, www: bool, owner: string, d: string): (r: Option<BlobLink>)
    requires IsSegment(owner)
    ensures r.Some? ==> WellFormed(r.value) && LinkText(r.value) == Origin(secure, www) + "github.com/" + owner + "/" + d
  {
    var m := SegmentLen(d);
    var e := d[m..];
    if m == 0 || !StartsWith(e, "/blob/") || |e| == 6 || IsLineTerminator(e[6]) then None
    else
      assert d == d[..m] + "/blob/" + e[6..];
      Some(BlobLink(secure, www, owner, d[..m], e[6..]))
  }

  /** `isGithubUrl` in handleTextChange. */
  predicate IsGithubBlobLink(s: string) {
    ParseBlobLink(s).Some?
  }

  lemma SegmentLenOf(w: string, t: string)
    requires forall k :: 0 <= k < |w| ==> IsSegmentChar(w[k])
    requires t != [] && !IsSegmentChar(t[0])
    ensures SegmentLen(w + t) == |w|
  {
    if w != [] {
      assert (w + t)[1..] == w[1..] + t;
      SegmentLenOf(w[1..], t);
    }
  }

  lemma ParseRepoComplete(l: BlobLink)
    requires WellFormed(l)
    ensures ParseRepo(l.secure, l.www, l.owner, l.repo + "/blob/" + l.rest) == Some(l)
  {
    var e := "/blob/" + l.rest;
    var d := l.repo + e;
    assert l.repo + "/blob/" + l.rest == d;
    SegmentLenOf(l.repo, e);
    assert d[..|l.repo|] == l.repo && d[|l.repo|..] == e;
    assert StartsWith(e, "/blob/") && e[6..] == l.rest;
  }

  lemma ParseOwnerStep(secure: bool, www: bool, owner: string, d: string)
    requires IsSegment(owner)
    ensures ParseOwner(secure, www, owner + "/" + d) == ParseRepo(secure, www, owner, d)
  {
    var c := owner + "/" + d;
    assert ("/" + d)[0] == '/';
    assert c == owner + ("/" + d);
    SegmentLenOf(owner, "/" + d);
    assert c[..|owner|] == owner && c[|owner|] == '/' && c[|owner| + 1..] == d;
  }

  lemma ParsePathStep(secure: bool, www: bool, c: string)
    ensures ParsePath(secure, www, "github.com/" + c) == ParseOwner(secure, www, c)
  {
    assert ("github.com/" + c)[11..] == c;
  }

  lemma ParseHostPlain(secure: bool, b: string)
    requires b != [] && b[0] == 'g'
    ensures ParseHost(secure, b) == ParsePath(secure, false, b)
  {
    assert !StartsWith(b, "www.") by {
      assert |b| < 4 || b[..4][0] != "www."[0];
    }
  }

  lemma ParseHostWww(secure: bool, b: string)
    ensures ParseHost(secure, "www." + b) == ParsePath(secure, true, b)
  {
    assert ("www." + b)[4..] == b;
  }

  lemma ParseSchemeHttps(a: string)
    ensures ParseBlobLink("https://" + a) == ParseHost(true, a)
  {
    assert ("https://" + a)[8..] == a;
  }

  lemma ParseSchemeHttp(a: string)
    ensures ParseBlobLink("http://" + a) == ParseHost(false, a)
  {
    var s := "http://" + a;
    assert !StartsWith(s, "https://") by {
      assert |s| < 8 || s[..8][4] != "https://"[4];
    }
    assert s[..7] == "http://" && s[7..] == a;
  }

  /** Every well-formed link is accepted and parses back to itself. */
  lemma ParseComplete(l: BlobLink)
    requires WellFormed(l)
    ensures ParseBlobLink(LinkText(l)) == Some(l)
  {
    var d := l.repo + "/blob/" + l.rest;
    var c := l.owner + "/" + d;
    ParseRepoComplete(l);
    ParseOwnerStep(l.secure, l.www, l.owner, d);
    var b := "github.com/" + c;
    ParsePathStep(l.secure, l.www, c);
    var a := if l.www then "www." + b else b;
    if l.www {
      ParseHostWww(l.secure, b);
    } else {
      ParseHostPlain(l.secure, b);
    }
    if l.secure {
      ParseSchemeHttps(a);
      assert LinkText(l) == "https://" + a;
    } else {
      ParseSchemeHttp(a);
      assert LinkText(l) == "http://" + a;
    }
  }

  /** The detector accepts exactly the texts of well-formed links. */
  lemma DetectorExact(s: string)
    ensures IsGithubBlobLink(s) <==> exists l :: WellFormed(l) && LinkText(l) == s
  {
    if exists l :: WellFormed(l) && LinkText(l) == s {
      var l :| WellFormed(l) && LinkText(l) == s;
      ParseComplete(l);
    }
  }

  /** Distinct well-formed links have distinct texts. */
  lemma LinkTextInjective(l1: BlobLink, l2: BlobLink)
    requires WellFormed(l1) && WellFormed(l2) && LinkText(l1) == LinkText(l2)
    ensures l1 == l2
  {
    ParseComplete(l1);
    ParseComplete(l2);
  }

  // ----- the rewrite in fetchGithubCode -----

  /**
   * The rewrite as written: when the URL names github.com but not the raw
   * host, the first `github.com` becomes the raw host and then the first
   * `/blob/` becomes `/`; any other URL is returned as it is.
   */
  function RawUrl(url: string): (r: string)
    ensures !(Contains(url, GithubHost) && !Contains(url, RawHost)) ==> r == url
    ensures Contains(url, GithubHost) && !Contains(url, RawHost) ==> Contains(r, RawHost)
  {
    if Contains(url, GithubHost) && !Contains(url, RawHost) then
      var s := ReplaceFirst(url, GithubHost, RawHost);
      var i := IndexOf(url, GithubHost).value;
      assert OccursAt(s, RawHost, i);
      ReplaceBlobKeepsRawHost(s, i);
      ReplaceFirst(s, "/blob/", "/")
    else url
  }

  /** A `/blob/` and the raw host never overlap: the host has no slash. */
  lemma BlobApartFromRawHost(s: string, k: nat, i: nat)
    requires OccursAt(s, RawHost, k) && OccursAt(s, "/blob/", i)
    ensures i + 6 <= k || k + |RawHost| <= i
  {
    if !(i + 6 <= k || k + |RawHost| <= i) {
      OccursAtChar(s, "/blob/", i, i);
      OccursAtChar(s, "/blob/", i, i + 5);
      if k <= i {
        OccursAtChar(s, RawHost, k, i);
      } else {
        OccursAtChar(s, RawHost, k, i + 5);
      }
      assert false;
    }
  }

  /** Shrinking a `/blob/` before the raw host moves the host five places left. */
  lemma RawHostAfterCut(s: string, r: string, k: nat, i: nat)
    requires OccursAt(s, RawHost, k) && i + 6 <= k && |r| == |s| - 5 && r[i + 1..] == s[i + 6..]
    ensures Contains(r, RawHost)
  {
    ShiftedSlice(r, s, i + 1, i + 6, k, |RawHost|);
    ContainsAt(r, RawHost, k - 5);
  }

  /** Shrinking a `/blob/` after the raw host leaves the host in place. */
  lemma RawHostBeforeCut(s: string, r: string, k: nat, i: nat)
    requires OccursAt(s, RawHost, k) && k + |RawHost| <= i <= |r| && i <= |s| && r[..i] == s[..i]
    ensures Contains(r, RawHost)
  {
    PrefixSlice(r, s, i, k, |RawHost|);
    ContainsAt(r, RawHost, k);
  }

  lemma ReplaceBlobKeepsRawHost(s: string, k: nat)
    requires OccursAt(s, RawHost, k)
    ensures Contains(ReplaceFirst(s, "/blob/", "/"), RawHost)
  {
    var r := ReplaceFirst(s, "/blob/", "/");
    match IndexOf(s, "/blob/")
    case None =>
      ContainsAt(s, RawHost, k);
    case Some(i) =>
      BlobApartFromRawHost(s, k, i);
      if i + 6 <= k {
        RawHostAfterCut(s, r, k, i);
      } else {
        RawHostBeforeCut(s, r, k, i);
      }
  }

  /** Rewriting a rewritten URL changes nothing. */
  lemma RawUrlIdempotent(url: string)
    ensures RawUrl(RawUrl(url)) == RawUrl(url)
  {
  }

  // ----- the rewrite applied to a link -----

  lemma OriginLetters(secure: bool, www: bool)
    ensures 'g' !in Origin(secure, www) && 'b' !in Origin(secure, www) && 'r' !in Origin(secure, www)
  {
  }

  /** The first replacement of the rewrite, on a text whose prefix `p` has no `g`. */
  lemma SwapAfter(p: string, x: string)
    requires 'g' !in p
    ensures ReplaceFirst(p + GithubHost + x, GithubHost, RawHost) == p + RawHost + x
  {
    var s := p + GithubHost + x;
    FirstAfter(p, GithubHost, x);
    var r := ReplaceFirst(s, GithubHost, RawHost);
    var i := |p|;
    assert r == r[..i] + r[i..i + |RawHost|] + r[i + |RawHost|..];
    assert s[..i] == p && s[i + |GithubHost|..] == x;
  }

  /** `/blob/` begins only at a slash that is followed by `b`. */
  lemma NoBlobAt(u: string, j: nat)
    requires j < |u| && (u[j] != '/' || (j + 1 < |u| && u[j + 1] != 'b'))
    ensures !OccursAt(u, "/blob/", j)
  {
    if j + 6 <= |u| {
      assert u[j..j + 6][0] == u[j] && u[j..j + 6][1] == u[j + 1];
    }
  }

  /** No `/blob/` begins before index `k`. */
  predicate NoBlobBefore(u: string, k: nat) {
    forall j: nat :: j < k ==> !OccursAt(u, "/blob/", j)
  }

  lemma FirstBlobAt(u: string, k: nat)
    requires NoBlobBefore(u, k) && OccursAt(u, "/blob/", k)
    ensures IndexOf(u, "/blob/") == Some(k)
  {
    IndexOfFirst(u, "/blob/", k);
  }

  /** Every slash of `hd` is followed, inside `hd`, by something other than `b`. */
  predicate SlashesGuarded(hd: string) {
    forall j :: 0 <= j < |hd| && hd[j] == '/' ==> j + 1 < |hd| && hd[j + 1] != 'b'
  }

  lemma RawHostShape()
    ensures '/' !in RawHost && RawHost[0] == 'r'
  {
  }

  /** An origin-like prefix followed by the raw host is guarded. */
  lemma HeadGuarded(p: string)
    requires 'b' !in p
    ensures SlashesGuarded(p + RawHost)
  {
    var hd := p + RawHost;
    RawHostShape();
    forall j | 0 <= j < |hd| && hd[j] == '/'
      ensures j + 1 < |hd| && hd[j + 1] != 'b'
    {
      if j < |p| {
        assert hd[j] == p[j];
        if j + 1 < |p| {
          assert hd[j + 1] == p[j + 1];
        } else {
          assert hd[j + 1] == RawHost[0];
        }
      }
    }
  }

  /** No `/blob/` begins inside a guarded head. */
  lemma NoBlobInHead(u: string, hd: string, j: nat)
    requires SlashesGuarded(hd) && |hd| <= |u| && u[..|hd|] == hd && j < |hd|
    ensures !OccursAt(u, "/blob/", j)
  {
    assert u[j] == hd[j];
    if u[j] == '/' {
      assert u[j + 1] == hd[j + 1];
    }
    NoBlobAt(u, j);
  }

  lemma NoBlobInHeadAll(u: string, hd: string)
    requires SlashesGuarded(hd) && |hd| <= |u| && u[..|hd|] == hd
    ensures NoBlobBefore(u, |hd|)
  {
    forall j: nat | j < |hd| ensures !OccursAt(u, "/blob/", j) {
      NoBlobInHead(u, hd, j);
    }
  }

  /** `/blob/` at `j`, character by character. */
  lemma BlobChars(u: string, j: nat)
    requires j + 6 <= |u|
    ensures OccursAt(u, "/blob/", j) <==>
      u[j] == '/' && u[j + 1] == 'b' && u[j + 2] == 'l' && u[j + 3] == 'o' && u[j + 4] == 'b' && u[j + 5] == '/'
  {
    var v := u[j..j + 6];
    assert v[0] == u[j] && v[1] == u[j + 1] && v[2] == u[j + 2];
    assert v[3] == u[j + 3] && v[4] == u[j + 4] && v[5] == u[j + 5];
  }

  /** `/blob/` cannot begin at the slash before a name other than "blob". */
  lemma NoBlobBeforeName(u: string, j: nat, w: string)
    requires j + |w| + 1 < |u| && u[j] == '/' && u[j + 1..j + 1 + |w|] == w && u[j + 1 + |w|] == '/'
    requires IsSegment(w) && w != "blob"
    ensures !OccursAt(u, "/blob/", j)
  {
    if j + 6 <= |u| {
      BlobChars(u, j);
      if |w| < 4 {
        assert u[j + 1 + |w|] == '/';
      } else if |w| == 4 {
        assert u[j + 1] == w[0] && u[j + 2] == w[1] && u[j + 3] == w[2] && u[j + 4] == w[3];
        assert w == [w[0], w[1], w[2], w[3]];
      } else {
        assert u[j + 5] == w[4] && w[4] != '/';
      }
    }
  }

  /** `/blob/` cannot begin inside a name. */
  lemma NoBlobInName(u: string, k: nat, w: string, j: nat)
    requires IsSegment(w) && k + |w| <= |u| && u[k..k + |w|] == w
    requires k <= j < k + |w|
    ensures !OccursAt(u, "/blob/", j)
  {
    assert u[j] == w[j - k];
    NoBlobAt(u, j);
  }

  /** A slash, a name other than "blob" and a slash hold no `/blob/` start. */
  lemma NoBlobThroughName(u: string, k: nat, w: string)
    requires NoBlobBefore(u, k) && IsSegment(w) && w != "blob"
    requires k + 1 + |w| < |u| && u[k] == '/' && u[k + 1..k + 1 + |w|] == w && u[k + 1 + |w|] == '/'
    ensures NoBlobBefore(u, k + 1 + |w|)
  {
    forall j: nat | j < k + 1 + |w| ensures !OccursAt(u, "/blob/", j) {
      if j == k {
        NoBlobBeforeName(u, k, w);
      } else if k < j {
        NoBlobInName(u, k + 1, w, j);
      }
    }
  }

  /** A slash, the name "blob" and a slash are a `/blob/`. */
  lemma BlobAtBlobName(u: string, k: nat, w: string)
    requires w == "blob" && k + 6 <= |u| && u[k] == '/' && u[k + 1..k + 5] == w && u[k + 5] == '/'
    ensures OccursAt(u, "/blob/", k)
  {
    BlobChars(u, k);
    assert u[k + 1] == w[0] && u[k + 2] == w[1] && u[k + 3] == w[2] && u[k + 4] == w[3];
  }

  /**
   * The first `/blob/` of a text that reads `/` + w + `/blob/` from index `k`
   * on, where nothing before `k` starts one.
   */
  lemma FirstBlobAfter(u: string, k: nat, w: string)
    requires NoBlobBefore(u, k) && IsSegment(w) && k + 1 + |w| + 6 <= |u|
    requires u[k] == '/' && u[k + 1..k + 1 + |w|] == w && u[k + 1 + |w|..k + 1 + |w| + 6] == "/blob/"
    ensures IndexOf(u, "/blob/") == if w == "blob" then Some(k) else Some(k + 1 + |w|)
  {
    var n := k + 1 + |w|;
    OccursAtChar(u, "/blob/", n, n);
    if w == "blob" {
      BlobAtBlobName(u, k, w);
      FirstBlobAt(u, k);
    } else {
      NoBlobThroughName(u, k, w);
      FirstBlobAt(u, n);
    }
  }

  /** The slices of hd + "/" + o + "/" + w + "/blob/" + rest. */
  lemma SwappedParts(hd: string, o: string, w: string, rest: string)
    ensures var u := hd + "/" + o + "/" + w + "/blob/" + rest;
      var h := |hd| + 1;
      var k := h + |o|;
      var n := k + 1 + |w|;
      && |u| == n + 6 + |rest|
      && u[..|hd|] == hd && u[h - 1] == '/'
      && u[h..k] == o && u[k] == '/' && u[k + 1..n] == w
      && u[n..n + 6] == "/blob/" && u[n + 6..] == rest
  {
  }

  /**
   * Where the second replacement of the rewrite strikes in the text
   * hd + "/" + o + "/" + w + "/blob/" + rest that the first one leaves,
   * `hd` being the origin and the raw host.
   */
  lemma FirstBlobOwnerBlob(hd: string, o: string, w: string, rest: string)
    requires SlashesGuarded(hd) && o == "blob" && IsSegment(w)
    ensures IndexOf(hd + "/" + o + "/" + w + "/blob/" + rest, "/blob/") == Some(|hd|)
  {
    var u := hd + "/" + o + "/" + w + "/blob/" + rest;
    SwappedParts(hd, o, w, rest);
    NoBlobInHeadAll(u, hd);
    BlobAtBlobName(u, |hd|, o);
    FirstBlobAt(u, |hd|);
  }

  lemma FirstBlobOwnerPlain(hd: string, o: string, w: string, rest: string)
    requires SlashesGuarded(hd) && IsSegment(o) && o != "blob" && IsSegment(w)
    ensures var k := |hd| + 1 + |o|;
      IndexOf(hd + "/" + o + "/" + w + "/blob/" + rest, "/blob/") ==
        if w == "blob" then Some(k) else Some(k + 1 + |w|)
  {
    var u := hd + "/" + o + "/" + w + "/blob/" + rest;
    SwappedParts(hd, o, w, rest);
    NoBlobInHeadAll(u, hd);
    NoBlobThroughName(u, |hd|, o);
    FirstBlobAfter(u, |hd| + 1 + |o|, w);
  }

  /** The second replacement of the rewrite, given where it strikes. */
  lemma ReplaceAtFirst(u: string, i: nat)
    requires IndexOf(u, "/blob/") == Some(i)
    ensures ReplaceFirst(u, "/blob/", "/") == u[..i] + "/" + u[i + 6..]
  {
  }

  /** The second replacement when the owner is named "blob". */
  lemma SecondReplaceOwnerBlob(hd: string, o: string, w: string, rest: string)
    requires SlashesGuarded(hd) && o == "blob" && IsSegment(w)
    ensures ReplaceFirst(hd + "/" + o + "/" + w + "/blob/" + rest, "/blob/", "/") ==
      hd + "/" + w + "/blob/" + rest
  {
    var u := hd + "/" + o + "/" + w + "/blob/" + rest;
    FirstBlobOwnerBlob(hd, o, w, rest);
    SwappedParts(hd, o, w, rest);
    var h := |hd| + 1;
    ReplaceAtFirst(u, h - 1);
    assert u[..h - 1] == hd;
    assert u[h + 5..] == w + "/blob/" + rest;
  }

  /** The second replacement when the owner is not named "blob" but the repository is. */
  lemma SecondReplaceRepoBlob(hd: string, o: string, w: string, rest: string)
    requires SlashesGuarded(hd) && IsSegment(o) && o != "blob" && w == "blob"
    ensures ReplaceFirst(hd + "/" + o + "/" + w + "/blob/" + rest, "/blob/", "/") ==
      hd + "/" + o + "/" + w + "/" + rest
  {
    var u := hd + "/" + o + "/" + w + "/blob/" + rest;
    FirstBlobOwnerPlain(hd, o, w, rest);
    SwappedParts(hd, o, w, rest);
    var k := |hd| + 1 + |o|;
    ReplaceAtFirst(u, k);
    assert u[..k] == hd + "/" + o;
    assert u[k + 6..] == "blob/" + rest;
  }

  /** The second replacement when neither name is "blob". */
  lemma SecondReplacePlain(hd: string, o: string, w: string, rest: string)
    requires SlashesGuarded(hd) && IsSegment(o) && o != "blob" && IsSegment(w) && w != "blob"
    ensures ReplaceFirst(hd + "/" + o + "/" + w + "/blob/" + rest, "/blob/", "/") ==
      hd + "/" + o + "/" + w + "/" + rest
  {
    var u := hd + "/" + o + "/" + w + "/blob/" + rest;
    FirstBlobOwnerPlain(hd, o, w, rest);
    SwappedParts(hd, o, w, rest);
    var n := |hd| + 1 + |o| + 1 + |w|;
    ReplaceAtFirst(u, n);
    assert u[..n] == hd + "/" + o + "/" + w;
  }

  /** The rewrite of a URL its guard admits is the two replacements in turn. */
  lemma RawUrlGuarded(url: string)
    requires Contains(url, GithubHost) && !Contains(url, RawHost)
    ensures RawUrl(url) == ReplaceFirst(ReplaceFirst(url, GithubHost, RawHost), "/blob/", "/")
  {
  }

  /** The first replacement of the rewrite, on p + "github.com/" + o + "/" + w + "/blob/" + rest. */
  lemma FirstReplace(p: string, o: string, w: string, rest: string)
    requires 'g' !in p
    ensures var url := p + "github.com/" + o + "/" + w + "/blob/" + rest;
      && Contains(url, GithubHost)
      && ReplaceFirst(url, GithubHost, RawHost) == p + RawHost + "/" + o + "/" + w + "/blob/" + rest
  {
    var x := "/" + o + "/" + w + "/blob/" + rest;
    GithubHostSlash();
    Regroup(p, GithubHost, o, w, rest);
    Regroup(p, RawHost, o, w, rest);
    FirstAfter(p, GithubHost, x);
    SwapAfter(p, x);
  }

  lemma GithubHostSlash()
    ensures "github.com/" == GithubHost + "/"
  {
  }

  /** The tail after a host, as one piece. */
  lemma Regroup(p: string, g: string, o: string, w: string, rest: string)
    ensures p + (g + "/") + o + "/" + w + "/blob/" + rest == p + g + ("/" + o + "/" + w + "/blob/" + rest)
    ensures p + g + "/" + o + "/" + w + "/blob/" + rest == p + g + ("/" + o + "/" + w + "/blob/" + rest)
  {
  }

  /** The rewrite of p + "github.com/" + o + "/" + w + "/blob/" + rest for an origin-like `p`. */
  lemma RawUrlOfParts(p: string, o: string, w: string, rest: string)
    requires 'g' !in p && 'b' !in p && IsSegment(o) && o != "blob" && IsSegment(w)
    requires !Contains(p + "github.com/" + o + "/" + w + "/blob/" + rest, RawHost)
    ensures RawUrl(p + "github.com/" + o + "/" + w + "/blob/" + rest) ==
      p + RawHost + "/" + o + "/" + w + "/" + rest
  {
    FirstReplace(p, o, w, rest);
    RawUrlGuarded(p + "github.com/" + o + "/" + w + "/blob/" + rest);
    HeadGuarded(p);
    if w == "blob" {
      SecondReplaceRepoBlob(p + RawHost, o, w, rest);
    } else {
      SecondReplacePlain(p + RawHost, o, w, rest);
    }
  }

  /**
   * For a well-formed link the guard of the rewrite admits (its text does
   * not already mention the raw host) and whose owner is not named "blob",
   * the rewrite yields the raw-content URL of the same owner, repository and
   * path, keeping the scheme and any `www.`.
   */
  lemma RawUrlOfLink(l: BlobLink)
    requires WellFormed(l) && !Contains(LinkText(l), RawHost) && l.owner != "blob"
    ensures RawUrl(LinkText(l)) == RawLinkText(l)
  {
    OriginLetters(l.secure, l.www);
    RawUrlOfParts(Origin(l.secure, l.www), l.owner, l.repo, l.rest);
  }

  // ----- a link whose owner is named "blob" -----

  /** The rewrite of p + "github.com/" + o + "/" + w + "/blob/" + rest when `o` is "blob". */
  lemma RawUrlOwnerBlobParts(p: string, o: string, w: string, rest: string)
    requires 'g' !in p && 'b' !in p && o == "blob" && IsSegment(w)
    requires !Contains(p + "github.com/" + o + "/" + w + "/blob/" + rest, RawHost)
    ensures RawUrl(p + "github.com/" + o + "/" + w + "/blob/" + rest) ==
      p + RawHost + "/" + w + "/blob/" + rest
  {
    FirstReplace(p, o, w, rest);
    RawUrlGuarded(p + "github.com/" + o + "/" + w + "/blob/" + rest);
    HeadGuarded(p);
    SecondReplaceOwnerBlob(p + RawHost, o, w, rest);
  }

  /**
   * As written, the rewrite of a link whose owner is named "blob" removes
   * the owner instead of the `/blob/` that follows the repository.
   */
  lemma RawUrlOwnerBlob(l: BlobLink)
    requires WellFormed(l) && l.owner == "blob" && !Contains(LinkText(l), RawHost)
    ensures RawUrl(LinkText(l)) == Origin(l.secure, l.www) + RawHost + "/" + l.repo + "/blob/" + l.rest
  {
    OriginLetters(l.secure, l.www);
    RawUrlOwnerBlobParts(Origin(l.secure, l.www), l.owner, l.repo, l.rest);
  }

  /** Moving the "blob" from in front of a name to behind it changes the text. */
  lemma OwnerBlobDiffers(p: string, o: string, w: string, rest: string)
    requires o == "blob" && IsSegment(w) && w != "blob"
    ensures p + RawHost + "/" + w + "/blob/" + rest != p + RawHost + "/" + o + "/" + w + "/" + rest
  {
    var u := p + RawHost + "/" + w + "/blob/" + rest;
    var v := p + RawHost + "/" + o + "/" + w + "/" + rest;
    var h := |p| + |RawHost| + 1;
    assert u[h..h + |w|] == w && u[h + |w|] == '/';
    assert v[h..h + 5] == "blob/";
    if |w| < 4 {
      assert v[h + |w|] == "blob/"[|w|] != '/';
    } else if |w| == 4 {
      assert w == [w[0], w[1], w[2], w[3]];
      var m :| 0 <= m < 4 && w[m] != "blob"[m];
      assert u[h + m] == w[m] && v[h + m] == "blob"[m];
    } else {
      assert u[h + 4] == w[4] && v[h + 4] == '/';
    }
  }

  /**
   * Hence the rewrite misroutes every such link whose repository is not also
   * named "blob": the result is not the link's raw-content URL.
   */
  lemma RawUrlOwnerBlobMisroutes(l: BlobLink)
    requires WellFormed(l) && l.owner == "blob" && l.repo != "blob" && !Contains(LinkText(l), RawHost)
    ensures RawUrl(LinkText(l)) != RawLinkText(l)
  {
    RawUrlOwnerBlob(l);
    OwnerBlobDiffers(Origin(l.secure, l.www), l.owner, l.repo, l.rest);
  }

  lemma OccursAtHead(s: string, t: string, i: nat)
    requires OccursAt(s, t, i) && t != []
    ensures s[i] == t[0]
  {
    assert s[i..i + |t|][0] == s[i];
  }

  /** A text without an `r` cannot mention the raw host. */
  lemma NoRawHostWithoutR(s: string)
    requires 'r' !in s
    ensures !Contains(s, RawHost)
  {
    if Contains(s, RawHost) {
      var i := IndexOf(s, RawHost).value;
      OccursAtHead(s, RawHost, i);
      assert false;
    }
  }

  /**
   * The concrete case: the link https://github.com/blob/widgets/blob/main/a.ts
   * passes the detector and is rewritten to
   * https://raw.githubusercontent.com/widgets/blob/main/a.ts instead of
   * https://raw.githubusercontent.com/blob/widgets/main/a.ts.
   */
  lemma OwnerBlobExample(l: BlobLink)
    requires l == BlobLink(true, false, "blob", "widgets", "main/a.ts")
    ensures ParseBlobLink(LinkText(l)) == Some(l)
    ensures RawUrl(LinkText(l)) == Origin(true, false) + RawHost + "/" + l.repo + "/blob/" + l.rest
    ensures RawUrl(LinkText(l)) != RawLinkText(l)
  {
    assert WellFormed(l);
    OriginLetters(true, false);
    NoRawHostWithoutR(LinkText(l));
    ParseComplete(l);
    RawUrlOwnerBlob(l);
    RawUrlOwnerBlobMisroutes(l);
  }

  // ----- the rewrite as intended -----

  lemma RawHostAfterOrigin(p: string, o: string, w: string, rest: string)
    ensures OccursAt(p + RawHost + "/" + o + "/" + w + "/" + rest, RawHost, |p|)
  {
    var u := p + RawHost + "/" + o + "/" + w + "/" + rest;
    assert u[|p|..|p| + |RawHost|] == RawHost;
  }

  lemma RawLinkHasRawHost(l: BlobLink)
    ensures Contains(RawLinkText(l), RawHost)
  {
    RawHostAfterOrigin(Origin(l.secure, l.www), l.owner, l.repo, l.rest);
    ContainsAt(RawLinkText(l), RawHost, |Origin(l.secure, l.www)|);
  }

  /**
   * The rewrite the comment in fetchGithubCode describes: a file-view link
   * becomes the raw-content URL of its own owner, repository and path; any
   * other URL is rewritten as before.
   */
  function FixedRawUrl(url: string): (r: string)
    ensures !(Contains(url, GithubHost) && !Contains(url, RawHost)) ==> r == url
    ensures Contains(url, GithubHost) && !Contains(url, RawHost) ==> Contains(r, RawHost)
  {
    if Contains(url, GithubHost) && !Contains(url, RawHost) then
      match ParseBlobLink(url)
      case Some(l) =>
        RawLinkHasRawHost(l);
        RawLinkText(l)
      case None => RawUrl(url)
    else url
  }

  /** The corrected rewrite takes every link the guard admits to its raw-content URL. */
  lemma FixedRawUrlOfLink(l: BlobLink)
    requires WellFormed(l) && !Contains(LinkText(l), RawHost)
    ensures FixedRawUrl(LinkText(l)) == RawLinkText(l)
  {
    OriginLetters(l.secure, l.www);
    FirstReplace(Origin(l.secure, l.www), l.owner, l.repo, l.rest);
    ParseComplete(l);
  }

  /** It differs from the rewrite as written only on links whose owner is named "blob". */
  lemma FixedRawUrlAgrees(url: string)
    requires ParseBlobLink(url).None? || ParseBlobLink(url).value.owner != "blob"
    ensures FixedRawUrl(url) == RawUrl(url)
  {
    if Contains(url, GithubHost) && !Contains(url, RawHost) && ParseBlobLink(url).Some? {
      RawUrlOfLink(ParseBlobLink(url).value);
    }
  }

  /** Rewriting a rewritten URL again changes nothing. */
  lemma FixedRawUrlIdempotent(url: string)
    ensures FixedRawUrl(FixedRawUrl(url)) == FixedRawUrl(url)
  {
  }

  // ----- the input box -----

  /**
   * What a change of the text starts: a fetch of the URL rewritten as
   * fetchGithubCode rewrites it, exactly when the trimmed text is a
   * file-view link.
   */
  function FetchRequest(value: string): (r: Option<string>)
    ensures r.Some? <==> IsGithubBlobLink(Trim(value))
    ensures r.Some? ==> r.value == RawUrl(Trim(value))
  {
    var trimmed := Trim(value);
    if IsGithubBlobLink(trimmed) then Some(RawUrl(trimmed)) else None
  }

  /** A link padded with whitespace is trimmed to the link itself and accepted. */
  lemma PaddedLinkAccepted(a: string, l: BlobLink, b: string)
    requires AllWhitespace(a) && AllWhitespace(b)
    requires WellFormed(l) && !IsWhitespace(l.rest[|l.rest| - 1])
    ensures Trim(a + LinkText(l) + b) == LinkText(l)
    ensures IsGithubBlobLink(LinkText(l)) && ParseBlobLink(LinkText(l)) == Some(l)
  {
    var t := LinkText(l);
    assert t[0] == 'h' && t[|t| - 1] == l.rest[|l.rest| - 1];
    TrimPadded(a, t, b);
    ParseComplete(l);
  }

  /**
   * A pasted link, with whitespace around it, whose owner is not named
   * "blob" fetches its raw-content URL.
   */
  lemma FetchRequestOfLink(a: string, l: BlobLink, b: string)
    requires AllWhitespace(a) && AllWhitespace(b)
    requires WellFormed(l) && !IsWhitespace(l.rest[|l.rest| - 1]) && !Contains(LinkText(l), RawHost)
    requires l.owner != "blob"
    ensures FetchRequest(a + LinkText(l) + b) == Some(RawLinkText(l))
  {
    PaddedLinkAccepted(a, l, b);
    RawUrlOfLink(l);
  }

  /**
   * A pasted link whose owner is named "blob" fetches a URL without the
   * owner, which for a repository not itself named "blob" is not the
   * link's raw-content URL.
   */
  lemma FetchRequestOwnerBlob(a: string, l: BlobLink, b: string)
    requires AllWhitespace(a) && AllWhitespace(b)
    requires WellFormed(l) && !IsWhitespace(l.rest[|l.rest| - 1]) && !Contains(LinkText(l), RawHost)
    requires l.owner == "blob"
    ensures FetchRequest(a + LinkText(l) + b) ==
      Some(Origin(l.secure, l.www) + RawHost + "/" + l.repo + "/blob/" + l.rest)
    ensures l.repo != "blob" ==> FetchRequest(a + LinkText(l) + b) != Some(RawLinkText(l))
  {
    PaddedLinkAccepted(a, l, b);
    RawUrlOwnerBlob(l);
    if l.repo != "blob" {
      RawUrlOwnerBlobMisroutes(l);
    }
  }

  /** The request of a corrected input box, which fetches with the corrected rewrite. */
  function FixedFetchRequest(value: string): (r: Option<string>)
    ensures r.Some? <==> IsGithubBlobLink(Trim(value))
    ensures r.Some? ==> r.value == FixedRawUrl(Trim(value))
  {
    var trimmed := Trim(value);
    if IsGithubBlobLink(trimmed) then Some(FixedRawUrl(trimmed)) else None
  }

  /** The corrected box fetches the raw-content URL of every pasted link, owner "blob" included. */
  lemma FixedFetchRequestOfLink(a: string, l: BlobLink, b: string)
    requires AllWhitespace(a) && AllWhitespace(b)
    requires WellFormed(l) && !IsWhitespace(l.rest[|l.rest| - 1]) && !Contains(LinkText(l), RawHost)
    ensures FixedFetchRequest(a + LinkText(l) + b) == Some(RawLinkText(l))
  {
    PaddedLinkAccepted(a, l, b);
    FixedRawUrlOfLink(l);
  }

  /** The outcome of `fetch` followed by `response.text()`. */
  datatype FetchResponse = NetworkError | Response(ok: bool, body: string)

  /** The code box: its buffer and whether a fetch is in flight. */
  class InputBox {
    var code: string
    var isFetching: bool

    constructor()
      ensures code == [] && !isFetching
    {
      code := [];
      isFetching := false;
    }

    /** The textarea accepts no changes while the parent is loading or a fetch runs. */
    predicate TextareaDisabled(isLoading: bool)
      reads this
    {
      isLoading || isFetching
    }

    predicate SubmitDisabled(isLoading: bool)
      reads this
    {
      isLoading || Trim(code) == [] || isFetching
    }

    /** What handleSubmit forwards: the untrimmed buffer, unless it is all whitespace. */
    function Submission(): (r: Option<string>)
      reads this
      ensures r.None? <==> AllWhitespace(code)
      ensures r.Some? ==> r.value == code
    {
      if Trim(code) == [] then None else Some(code)
    }

    /**
     * handleTextChange: the buffer takes the new text; when its trimmed form
     * is a link, the fetch of the rewritten URL starts and the box is busy.
     */
    method Edit(value: string, isLoading: bool) returns (request: Option<string>)
      requires !TextareaDisabled(isLoading)
      modifies this
      ensures code == value && request == FetchRequest(value) && isFetching == request.Some?
    {
      var r := FetchRequest(value);
      code := value;
      if r.Some? {
        isFetching := true;
      }
      request := r;
    }

    /**
     * The end of fetchGithubCode: an ok response replaces the buffer with the
     * fetched text; a failure keeps the link in the box; either way the box is
     * no longer busy.
     */
    method FetchDone(response: FetchResponse)
      requires isFetching
      modifies this
      ensures !isFetching
      ensures response.Response? && response.ok ==> code == response.body
      ensures !(response.Response? && response.ok) ==> code == old(code)
    {
      if response.Response? && response.ok {
        code := response.body;
      }
      isFetching := false;
    }
  }

  /** An enabled submit button forwards the whole buffer. */
  lemma SubmitEnabledForwards(box: InputBox, isLoading: bool)
    requires !box.SubmitDisabled(isLoading)
    ensures box.Submission() == Some(box.code)
    ensures !box.TextareaDisabled(isLoading)
  {
  }

  /** While a fetch runs, neither the text nor the submit button takes input. */
  lemma FetchingLocksInput(box: InputBox, isLoading: bool)
    requires box.isFetching
    ensures box.TextareaDisabled(isLoading) && box.SubmitDisabled(isLoading)
  {
  }
}
