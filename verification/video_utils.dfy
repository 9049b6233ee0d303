/** The direct-video sniffer: a URL's extension decides its MIME type, and a URL with a known
    MIME type can be played by the browser's own video element. */
module VideoUtils {
  import opened Options
  import opened Strings

  predicate IsAsciiAlnum(c: char) {
    IsAsciiDigit(c) || ('a' <= c <= 'z') || ('A' <= c <= 'Z')
  }

  /** A character that UTF-16 encodes as one code unit. */
  predicate IsSingleUnit(c: char) {
    (c as int) < 0x1_0000
  }

  /** The two readings of the extension pattern: as written (`\\.` in a regular-expression
      literal, a backslash followed by any one character) and as intended (a literal dot). */
  datatype Pattern = AsWritten | Intended

  /** How many characters precede the extension in a match of `pattern`. */
  function LeadLength(pattern: Pattern): nat {
    if pattern.AsWritten? then 2 else 1
  }

  /** The characters before the extension match at `p`. Without the `u` flag the pattern's
      `.` matches one UTF-16 code unit; a character above U+FFFF is two units, so `.` takes
      only its high surrogate and the letters and digits cannot start at the low one. */
  predicate LeadAt(url: string, p: nat, pattern: Pattern) {
    match pattern
    case AsWritten =>
      p + 1 < |url| && url[p] == '\\' && !IsLineTerminator(url[p + 1]) && IsSingleUnit(url[p + 1])
    case Intended => p < |url| && url[p] == '.'
  }

  /** `([a-z0-9]+)(?:[?#].*)?$` with the `i` flag matches from `start`: a non-empty run of
      letters and digits, then either the end or `?` or `#` and a tail with no line
      terminator. Backtracking cannot shorten the run, since a shorter run is followed by a
      letter or digit. */
  predicate ExtensionAt(url: string, start: nat) {
    start <= |url| &&
    var m := LeadingRun(url[start..], IsAsciiAlnum);
    m >= 1 &&
    (start + m == |url|
     || ((url[start + m] == '?' || url[start + m] == '#') && NoLineTerminator(url[start + m + 1..])))
  }

  /** Where the extension starts when the pattern matches at `p`. */
  predicate MatchAt(url: string, p: nat, pattern: Pattern) {
    LeadAt(url, p, pattern) && ExtensionAt(url, p + LeadLength(pattern))
  }

  /** The leftmost match at or after `from`, as `String.prototype.match` finds it. */
  function FirstMatch(url: string, from: nat, pattern: Pattern): (r: Option<nat>)
    ensures r.Some? ==> from <= r.value <= |url| && MatchAt(url, r.value, pattern)
    ensures forall q :: from <= q && (r.None? || q < r.value) ==> !MatchAt(url, q, pattern)
    decreases |url| - from
  {
    if from >= |url| then
      assert forall q :: from <= q ==> !LeadAt(url, q, pattern);
      None
    else if MatchAt(url, from, pattern) then Some(from)
    else FirstMatch(url, from + 1, pattern)
  }

  /** The run of letters and digits that starts at `start`. */
  function RunAt(url: string, start: nat): (r: string)
    requires start <= |url|
    ensures AllSatisfy(r, IsAsciiAlnum) && (r != [] <==> start < |url| && IsAsciiAlnum(url[start]))
  {
    var m := LeadingRun(url[start..], IsAsciiAlnum);
    assert url[start..start + m] == url[start..][..m];
    url[start..start + m]
  }

  /** `getVideoExtension` read with `pattern`: nothing for a missing or empty URL or when the
      pattern does not match, else the lower-cased run of the leftmost match. */
  function ExtensionWith(url: Option<string>, pattern: Pattern): (r: string)
    ensures url.None? || url == Some([]) ==> r == []
    ensures r != [] ==> exists p :: FirstMatch(url.value, 0, pattern) == Some(p)
                                    && r == Lower(RunAt(url.value, p + LeadLength(pattern)))
    ensures r != [] <==> url.Some? && FirstMatch(url.value, 0, pattern).Some?
    ensures forall i :: 0 <= i < |r| ==> IsAsciiDigit(r[i]) || ('a' <= r[i] <= 'z')
  {
    if url.None? || url.value == [] then []
    else
      match FirstMatch(url.value, 0, pattern)
      case None => []
      case Some(p) =>
        var run := RunAt(url.value, p + LeadLength(pattern));
        assert run != [];
        LowerOfAlnum(run);
        Lower(run)
  }

  lemma {:induction false} LowerOfAlnum(s: string)
    requires AllSatisfy(s, IsAsciiAlnum)
    ensures |Lower(s)| == |s|
    ensures forall i :: 0 <= i < |Lower(s)| ==> IsAsciiDigit(Lower(s)[i]) || ('a' <= Lower(s)[i] <= 'z')
  {
    if s != [] {
      LowerOfAlnum(s[1..]);
      assert Lower(s) == [LowerChar(s[0])] + Lower(s[1..]);
      forall i | 0 <= i < |Lower(s)|
        ensures IsAsciiDigit(Lower(s)[i]) || ('a' <= Lower(s)[i] <= 'z')
      {
        if i > 0 {
          assert Lower(s)[i] == Lower(s[1..])[i - 1];
          assert s[1..][i - 1] == s[i];
        }
      }
    }
  }

  function ExtensionAsWritten(url: Option<string>): string {
    ExtensionWith(url, AsWritten)
  }

  /** `getVideoExtension` with the literal dot the pattern is meant to require. */
  function Extension(url: Option<string>): string {
    ExtensionWith(url, Intended)
  }

  // ---------------------------------------------------------------------------------------
  // MIME types

  const MimeTypes: map<string, string> :=
    map["mp4" := "video/mp4", "webm" := "video/webm", "ogg" := "video/ogg"]

  /** What `VIDEO_MIME_TYPE_MAP[ext] || ''` can produce: a string, or, for a key that a plain
      object inherits, the inherited value. Of the inherited keys only `constructor` is a
      lower-case run of letters and digits, and its value is the `Object` function. */
  datatype MimeValue = MimeString(s: string) | ObjectFunction

  /** The lookup as written: own keys first, then the prototype's `constructor`. */
  function MimeOfExtensionAsWritten(ext: string): (r: MimeValue)
    ensures ext in MimeTypes ==> r == MimeString(MimeTypes[ext])
    ensures r == ObjectFunction <==> ext == "constructor"
  {
    if ext in MimeTypes then MimeString(MimeTypes[ext])
    else if ext == "constructor" then ObjectFunction
    else MimeString([])
  }

  /** The lookup on the map's own keys only. */
  function MimeOfExtension(ext: string): (r: string)
    ensures r == "video/mp4" || r == "video/webm" || r == "video/ogg" || r == []
    ensures r != [] <==> ext in MimeTypes
  {
    if ext in MimeTypes then MimeTypes[ext] else []
  }

  function MimeTypeAsWritten(url: Option<string>): MimeValue {
    MimeOfExtensionAsWritten(ExtensionAsWritten(url))
  }

  /** `getVideoMimeType`, corrected in both respects: one of the three video types, or the
      empty string. */
  function MimeType(url: Option<string>): (r: string)
    ensures r == "video/mp4" || r == "video/webm" || r == "video/ogg" || r == []
    ensures url.None? || url == Some([]) ==> r == []
  {
    MimeOfExtension(Extension(url))
  }

  /** `Boolean(...)` of a lookup result: only the empty string is falsy. */
  predicate Truthy(v: MimeValue) {
    v.ObjectFunction? || v.s != []
  }

  predicate IsDirectVideoUrlAsWritten(url: Option<string>) {
    Truthy(MimeTypeAsWritten(url))
  }

  /** `isDirectVideoUrl`: the URL names a known video type. */
  function IsDirectVideoUrl(url: Option<string>): (r: bool)
    ensures r <==> MimeType(url) != []
    ensures r <==> Extension(url) in MimeTypes
  {
    MimeType(url) != []
  }

  // ---------------------------------------------------------------------------------------
  // Properties

  /** A URL made of a base without query or fragment marks, a dot, an extension of letters
      and digits and an optional query or fragment has that extension, lower-cased. The base
      may hold dots of its own, as a host name and a path do. */
  lemma {:induction false} ExtensionOfFileName(base: string, ext: string, tail: string)
    requires '?' !in base && '#' !in base && ext != [] && AllSatisfy(ext, IsAsciiAlnum)
    requires tail == [] || ((tail[0] == '?' || tail[0] == '#') && NoLineTerminator(tail[1..]))
    ensures Extension(Some(base + "." + ext + tail)) == Lower(ext)
  {
    var url := base + "." + ext + tail;
    DotMatch(url, base, ext, tail);
    forall q | 0 <= q < |base| ensures !MatchAt(url, q, Intended) {
      EarlierDotNoMatch(url, base, q);
    }
    ExtensionOfMatch(url, |base|, Intended, ext);
  }

  /** A dot inside the base cannot start a match: its run of letters and digits stops inside
      the base or at the separating dot, on a character that is neither `?` nor `#`. */
  lemma {:induction false} EarlierDotNoMatch(url: string, base: string, q: nat)
    requires '?' !in base && '#' !in base && q < |base|
    requires |base| < |url| && url[..|base| + 1] == base + "."
    ensures !MatchAt(url, q, Intended)
  {
    if LeadAt(url, q, Intended) {
      var rest := url[q + 1..];
      var stop := |base| - q - 1;
      assert rest[stop] == url[|base|] == '.';
      RunEndsAt(rest, IsAsciiAlnum, stop);
      var m := LeadingRun(rest, IsAsciiAlnum);
      var e := q + 1 + m;
      assert e <= |base| < |url|;
      if e < |base| {
        assert url[e] == base[e];
      }
    }
  }

  /** A run stops no later than the first character that breaks it. */
  lemma {:induction false} RunEndsAt(s: string, p: char -> bool, stop: nat)
    requires stop < |s| && !p(s[stop])
    ensures LeadingRun(s, p) <= stop
  {
  }

  /** In such a URL the intended pattern matches at the dot, and the run after it is `ext`. */
  lemma {:induction false} DotMatch(url: string, base: string, ext: string, tail: string)
    requires ext != [] && AllSatisfy(ext, IsAsciiAlnum)
    requires tail == [] || ((tail[0] == '?' || tail[0] == '#') && NoLineTerminator(tail[1..]))
    requires url == base + "." + ext + tail
    ensures MatchAt(url, |base|, Intended) && RunAt(url, |base| + 1) == ext
  {
    var p := |base|;
    assert url[p] == '.';
    assert url[p + 1..] == ext + tail;
    RunThenTail(url, p + 1, ext, tail);
  }

  /** Where the rest of the URL is a run of letters and digits followed by an allowed tail,
      the extension pattern matches and its run is that run. */
  lemma {:induction false} RunThenTail(url: string, start: nat, ext: string, tail: string)
    requires ext != [] && AllSatisfy(ext, IsAsciiAlnum)
    requires tail == [] || ((tail[0] == '?' || tail[0] == '#') && NoLineTerminator(tail[1..]))
    requires start <= |url| && url[start..] == ext + tail
    ensures ExtensionAt(url, start) && RunAt(url, start) == ext
  {
    LeadingRunStops(ext + tail, IsAsciiAlnum, |ext|);
    var m := LeadingRun(url[start..], IsAsciiAlnum);
    assert m == |ext|;
    assert url[start..start + m] == ext;
    if tail != [] {
      assert url[start + m] == tail[0];
      assert url[start + m + 1..] == tail[1..];
    } else {
      assert start + m == |url|;
    }
  }

  /** The leftmost match decides the extension. */
  lemma {:induction false} ExtensionOfMatch(url: string, p: nat, pattern: Pattern, run: string)
    requires p <= |url| && MatchAt(url, p, pattern)
    requires forall q :: 0 <= q < p ==> !MatchAt(url, q, pattern)
    requires RunAt(url, p + LeadLength(pattern)) == run
    ensures ExtensionWith(Some(url), pattern) == Lower(run)
  {
    NoEarlierMatch(url, p, pattern);
  }

  /** With no match before `p` and one at `p`, the search from the start finds `p`. */
  lemma {:induction false} NoEarlierMatch(url: string, p: nat, pattern: Pattern)
    requires p <= |url| && MatchAt(url, p, pattern)
    requires forall q :: 0 <= q < p ==> !MatchAt(url, q, pattern)
    ensures FirstMatch(url, 0, pattern) == Some(p)
  {
  }

  /** As written, the pattern needs a backslash: a URL without one has no extension. */
  lemma {:induction false} NoBackslashNoExtension(url: string)
    requires '\\' !in url
    ensures ExtensionAsWritten(Some(url)) == []
  {
  }

  /** A URL made of a backslash-free base, a backslash, any single-unit character but a line
      terminator and a run of letters and digits has that run, lower-cased, as its extension
      as written. */
  lemma {:induction false} EscapedExtension(base: string, c: char, run: string)
    requires '\\' !in base && !IsLineTerminator(c) && IsSingleUnit(c)
    requires run != [] && AllSatisfy(run, IsAsciiAlnum)
    ensures ExtensionAsWritten(Some(base + ['\\', c] + run)) == Lower(run)
  {
    var url := base + ['\\', c] + run;
    EscapeMatch(url, base, c, run);
    forall q | 0 <= q < |base| ensures !MatchAt(url, q, AsWritten) {
      assert url[q] == base[q];
    }
    ExtensionOfMatch(url, |base|, AsWritten, run);
  }

  /** In such a URL the pattern as written matches at the backslash, and the run after the
      escaped character is `run`. */
  lemma {:induction false} EscapeMatch(url: string, base: string, c: char, run: string)
    requires !IsLineTerminator(c) && IsSingleUnit(c) && run != [] && AllSatisfy(run, IsAsciiAlnum)
    requires url == base + ['\\', c] + run
    ensures MatchAt(url, |base|, AsWritten) && RunAt(url, |base| + 2) == run
  {
    var p := |base|;
    assert url[p] == '\\' && url[p + 1] == c;
    assert url[p + 2..] == run;
    LeadingRunStops(run, IsAsciiAlnum, |run|);
    assert run[..|run|] == run;
  }

  /** As written, a character above U+FFFF after the backslash spoils the match: `x\😀mp4`
      has no extension, although the same URL with a single-unit character has one. */
  lemma {:induction false} AstralAfterBackslash()
    ensures ExtensionAsWritten(Some("x" + ['\\', '\U{1F600}'] + "mp4")) == []
    ensures ExtensionAsWritten(Some("x" + ['\\', 'e'] + "mp4")) == "mp4"
  {
    var url := "x" + ['\\', '\U{1F600}'] + "mp4";
    forall q | 0 <= q ensures !MatchAt(url, q, AsWritten) {
      if q < |url| && q != 1 {
        assert url[q] != '\\';
      }
    }
    assert FirstMatch(url, 0, AsWritten).None?;
    EscapedExtension("x", 'e', "mp4");
    Mp4IsLowerCase();
  }

  /** An ordinary video file name: no type as written, `video/mp4` as intended. */
  lemma {:induction false} PlainFileName()
    ensures ExtensionAsWritten(Some("clip" + "." + "mp4")) == []
    ensures !IsDirectVideoUrlAsWritten(Some("clip" + "." + "mp4"))
    ensures Extension(Some("clip" + "." + "mp4")) == "mp4"
    ensures MimeType(Some("clip" + "." + "mp4")) == "video/mp4"
    ensures IsDirectVideoUrl(Some("clip" + "." + "mp4"))
  {
    PlainFileNameAsWritten();
    PlainFileNameIntended();
  }

  lemma {:induction false} PlainFileNameAsWritten()
    ensures ExtensionAsWritten(Some("clip" + "." + "mp4")) == []
  {
    assert '\\' !in "clip" + "." + "mp4";
    NoBackslashNoExtension("clip" + "." + "mp4");
  }

  lemma {:induction false} PlainFileNameIntended()
    ensures Extension(Some("clip" + "." + "mp4")) == "mp4"
  {
    ExtensionOfFileName("clip", "mp4", "");
    assert "clip" + "." + "mp4" + "" == "clip" + "." + "mp4";
    Mp4IsLowerCase();
  }

  lemma {:induction false} Mp4IsLowerCase()
    ensures Lower("mp4") == "mp4"
  {
    var key := "mp4";
    forall i | 0 <= i < |key| ensures !('A' <= key[i] <= 'Z') {
      assert key[i] == 'm' || key[i] == 'p' || key[i] == '4';
    }
    LowerOfLowerCase(key);
  }

  /** As written, the extension `constructor` finds the `Object` function that every plain
      object inherits, and the URL counts as a direct video; with own keys only it does not. */
  lemma {:induction false} InheritedKeyIsDirect()
    ensures MimeOfExtensionAsWritten("constructor") == ObjectFunction
    ensures Truthy(MimeOfExtensionAsWritten("constructor"))
    ensures MimeOfExtension("constructor") == []
  {
  }

  /** A whole URL that reaches the inherited key through the pattern as written. */
  lemma {:induction false} InheritedKeyUrl()
    ensures ExtensionAsWritten(Some("a" + ['\\', '.'] + "constructor")) == "constructor"
    ensures IsDirectVideoUrlAsWritten(Some("a" + ['\\', '.'] + "constructor"))
  {
    EscapedExtension("a", '.', "constructor");
    ConstructorIsLowerCase();
  }

  lemma {:induction false} ConstructorIsLowerCase()
    ensures Lower("constructor") == "constructor"
  {
    var key := "constructor";
    forall i | 0 <= i < |key| ensures !('A' <= key[i] <= 'Z') {
      assert 'a' <= key[i] <= 'z';
    }
    LowerOfLowerCase(key);
  }
}
