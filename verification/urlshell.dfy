/** The text of a shinylive.io URL around its payload: what
    `ShinyliveIoApp.url` writes and what `url_decode` reads back
    (shinylive/_url.py). The payload is the LZString encoding of the bundle,
    opaque here: all that matters is that it uses LZString's URI-safe
    alphabet. */
module UrlShell {
  import opened Strings
  import opened Outcomes

  datatype Language = Py | R
  datatype Mode = EditorMode | AppMode

  function LanguageText(l: Language): (r: string)
    ensures r == "py" || r == "r"
  {
    if l == Py then "py" else "r"
  }

  function ModeText(m: Mode): (r: string)
    ensures r == "editor" || r == "app"
  {
    if m == EditorMode then "editor" else "app"
  }

  /** `ParseLanguage(s)` is the language whose text is `s`, if any. */
  function ParseLanguage(s: string): (r: Option<Language>)
    ensures r.Some? <==> s == "py" || s == "r"
    ensures r.Some? ==> LanguageText(r.value) == s
  {
    if s == "py" then Some(Py) else if s == "r" then Some(R) else None
  }

  function ParseMode(s: string): (r: Option<Mode>)
    ensures r.Some? <==> s == "editor" || s == "app"
    ensures r.Some? ==> ModeText(r.value) == s
  {
    if s == "editor" then Some(EditorMode) else if s == "app" then Some(AppMode) else None
  }

  /** The characters `LZString.compressToEncodedURIComponent` writes. */
  predicate IsUriSafe(c: char) {
    ('A' <= c <= 'Z') || ('a' <= c <= 'z') || ('0' <= c <= '9') || c == '+' || c == '-' || c == '$'
  }

  predicate UriSafe(payload: string) {
    forall i :: 0 <= i < |payload| ==> IsUriSafe(payload[i])
  }

  /** The `h=0&` flag: present exactly when the header is off in app mode. */
  function HeaderFlag(mode: Mode, header: bool): (h: string)
    ensures |h| > 0 <==> !header && mode == AppMode
    ensures |h| > 0 ==> h == "h=0&"
  {
    if !header && mode == AppMode then "h=0&" else ""
  }

  /** The page address before the fragment. */
  function PageOf(lang: Language, mode: Mode): string {
    "https://shinylive.io/" + LanguageText(lang) + "/" + ModeText(mode) + "/#"
  }

  /** Characters the page address and the flag never hold. */
  lemma PageChars(lang: Language, mode: Mode, header: bool)
    ensures 'c' !in PageOf(lang, mode) + HeaderFlag(mode, header)
    ensures '=' !in PageOf(lang, mode)
    ensures '.' !in LanguageText(lang) + "/" + ModeText(mode) + "/#" + HeaderFlag(mode, header) + "code="
  {
    var host, l, m, flag := "https://shinylive.io/", LanguageText(lang), ModeText(mode), HeaderFlag(mode, header);
    assert 'c' !in host && '=' !in host;
    assert 'c' !in l && '=' !in l && '.' !in l;
    assert 'c' !in m && '=' !in m && '.' !in m;
    assert 'c' !in flag && '.' !in flag;
    NotInConcat('c', host + l + "/" + m, "/#", flag);
    NotInConcat('=', host + l, "/", m);
    NotInConcat('=', host + l + "/" + m, "/#", "");
    NotInConcat('.', l, "/", m);
    NotInConcat('.', l + "/" + m + "/#", flag, "code=");
  }

  /** A character missing from three strings is missing from their
      concatenation. */
  lemma NotInConcat(c: char, a: string, b: string, d: string)
    requires c !in a && c !in b && c !in d
    ensures c !in a + b + d
  {
  }

  /** The string `url()` returns once mode and header are settled. */
  function UrlOf(lang: Language, mode: Mode, header: bool, payload: string): (u: string)
    ensures StartsWith(u, "https://shinylive.io/")
    ensures EndsWith(u, "code=" + payload)
  {
    var host, l, m, h := "https://shinylive.io/", LanguageText(lang), ModeText(mode), HeaderFlag(mode, header);
    var u := PageOf(lang, mode) + h + "code=" + payload;
    StartsWithConcat(host, l);
    StartsWithExtend(host + l, host, "/");
    StartsWithExtend(host + l + "/", host, m);
    StartsWithExtend(host + l + "/" + m, host, "/#");
    StartsWithExtend(PageOf(lang, mode), host, h);
    StartsWithExtend(PageOf(lang, mode) + h, host, "code=");
    StartsWithExtend(PageOf(lang, mode) + h + "code=", host, payload);
    assert u == (PageOf(lang, mode) + h) + ("code=" + payload);
    EndsWithConcat(PageOf(lang, mode) + h, "code=" + payload);
    u
  }

  /** `url.split("code=")[1]`: the text between the first occurrence of
      `code=` and the next one (or the end); None where Python raises
      IndexError because there is no `code=` at all. */
  function CodeSegment(u: string): (r: Option<string>)
    ensures r.Some? <==> Contains(u, "code=")
  {
    var i := Find(u, "code=");
    if i == |u| then None
    else
      var rest := u[i + 5..];
      Some(rest[..Find(rest, "code=")])
  }

  /** What `url_decode` reads from the URL text itself. */
  datatype Shell = Shell(language: Language, mode: Mode, header: bool, payload: string)

  /** The URL-text part of `url_decode`: strip the URL; the language is `r`
      when `shinylive.io/r/` occurs, `py` otherwise; no `code=` is a
      ValueError; the mode is `app` when `{language}/app/` occurs; the
      header is off when `h=0` occurs anywhere. */
  function DecodeShell(url: string): (r: Result<Shell>)
    ensures r.Err? <==> !Contains(Strip(url), "code=")
    ensures r.Err? ==> r.error.ValueError?
    ensures r.Ok? ==> && (r.value.language == R <==> Contains(Strip(url), "shinylive.io/r/"))
                      && (r.value.mode == AppMode <==> Contains(Strip(url), LanguageText(r.value.language) + "/app/"))
                      && (r.value.header <==> !Contains(Strip(url), "h=0"))
  {
    var u := Strip(url);
    var language := if Contains(u, "shinylive.io/r/") then R else Py;
    match CodeSegment(u)
    case None => Err(ValueError("Could not parse and decode the shinylive URL code payload."))
    case Some(payload) =>
      var mode := if Contains(u, LanguageText(language) + "/app/") then AppMode else EditorMode;
      Ok(Shell(language, mode, !Contains(u, "h=0"), payload))
  }

  // ---------------------------------------------------------------------
  // The round trip
  // ---------------------------------------------------------------------

  /** Reading back a URL written by `url()` recovers the language, the mode
      and the payload; the header is recovered in app mode, and always reads
      as on in editor mode, where `url()` never writes the flag. */
  lemma ShellRoundTrip(lang: Language, mode: Mode, header: bool, payload: string)
    requires UriSafe(payload)
    ensures DecodeShell(UrlOf(lang, mode, header, payload)) ==
            Ok(Shell(lang, mode, if mode == AppMode then header else true, payload))
  {
    var u := UrlOf(lang, mode, header, payload);
    StripUrl(lang, mode, header, payload);
    LanguageRoundTrip(lang, mode, header, payload);
    SegmentRoundTrip(lang, mode, header, payload);
    ModeRoundTrip(lang, mode, header, payload);
    HeaderRoundTrip(lang, mode, header, payload);
  }

  lemma StripUrl(lang: Language, mode: Mode, header: bool, payload: string)
    requires UriSafe(payload)
    ensures Strip(UrlOf(lang, mode, header, payload)) == UrlOf(lang, mode, header, payload)
  {
    var u := UrlOf(lang, mode, header, payload);
    assert u[0] == 'h';
    if |payload| > 0 {
      assert u[|u| - 1] == payload[|payload| - 1];
    } else {
      assert u[|u| - 1] == '=';
    }
    StripTrimmed(u);
  }

  /** `shinylive.io/r/` occurs exactly when the language is `r`: its `.` can
      only be the one of the host name, since nothing after it holds one. */
  lemma LanguageRoundTrip(lang: Language, mode: Mode, header: bool, payload: string)
    requires UriSafe(payload)
    ensures Contains(UrlOf(lang, mode, header, payload), "shinylive.io/r/") <==> lang == R
  {
    if lang == R {
      RUrlHasRHost(mode, header, payload);
    } else {
      PyUrlLacksRHost(mode, header, payload);
    }
  }

  lemma RUrlHasRHost(mode: Mode, header: bool, payload: string)
    ensures Contains(UrlOf(R, mode, header, payload), "shinylive.io/r/")
  {
    var m, h := ModeText(mode), HeaderFlag(mode, header);
    Regroup("https://shinylive.io/", "r", "/", m, "/#", h, "code=", payload);
    RHost(UrlOf(R, mode, header, payload), m + "/#" + h + "code=" + payload);
  }

  lemma PyUrlLacksRHost(mode: Mode, header: bool, payload: string)
    requires UriSafe(payload)
    ensures !Contains(UrlOf(Py, mode, header, payload), "shinylive.io/r/")
  {
    var m, h := ModeText(mode), HeaderFlag(mode, header);
    var u := UrlOf(Py, mode, header, payload);
    var mid := "py" + "/" + m + "/#" + h + "code=";
    Regroup("https://shinylive.io/", "py", "/", m, "/#", h, "code=", payload);
    PageChars(Py, mode, header);
    HostAnchor(u, mid, payload);
    assert u[21] == mid[0];
  }

  /** The two groupings of the written URL the proofs below read it by. */
  lemma Regroup(a: string, b: string, c: string, d: string, e: string, f: string, g: string, p: string)
    ensures a + b + c + d + e + f + g + p == a + (b + c + d + e + f + g) + p
    ensures a + b + c + d + e + f + g + p == a + (b + c + d) + (e + f + g + p)
    ensures a + b + c + d + e + f + g + p == a + b + c + (d + e + f + g + p)
    ensures a + b + c + d + e + f + g + p == a + (b + c + d + e) + (f + g + p)
  {
  }

  lemma Regroup4(a: string, b: string, c: string, d: string)
    ensures a + (b + c) + d == a + b + c + d
  {
  }

  lemma RHost(u: string, rest: string)
    requires u == "https://shinylive.io/" + "r" + "/" + rest
    ensures Contains(u, "shinylive.io/r/")
  {
    assert "https://shinylive.io/" + "r" + "/" == "https://" + "shinylive.io/r/";
    assert u == "https://" + "shinylive.io/r/" + rest;
    ContainsAt(u, "shinylive.io/r/", 8);
  }

  lemma HostAnchor(u: string, mid: string, payload: string)
    requires UriSafe(payload) && '.' !in mid && |mid| > 0
    requires u == "https://shinylive.io/" + mid + payload
    ensures Contains(u, "shinylive.io/r/") ==> u[21] == 'r'
  {
    var t := "shinylive.io/r/";
    var rest := "io/" + mid + payload;
    assert '.' !in payload;
    assert u == "https://shinylive" + ['.'] + rest;
    OnlyAt("https://shinylive", '.', rest);
    assert t[9] == '.' && t[13] == 'r';
    AnchoredOccurrence(u, t, 9, 17);
  }

  /** The payload is the text after the first `code=`: the letter `c` does
      not occur before it, and the payload holds no `=`. */
  lemma SegmentRoundTrip(lang: Language, mode: Mode, header: bool, payload: string)
    requires UriSafe(payload)
    ensures CodeSegment(UrlOf(lang, mode, header, payload)) == Some(payload)
  {
    var pre := PageOf(lang, mode) + HeaderFlag(mode, header);
    PageChars(lang, mode, header);
    SegmentAfter(UrlOf(lang, mode, header, payload), pre, payload);
  }

  lemma SegmentAfter(u: string, pre: string, payload: string)
    requires UriSafe(payload) && 'c' !in pre
    requires u == pre + "code=" + payload
    ensures CodeSegment(u) == Some(payload)
  {
    var n := |pre|;
    assert u[n..] == "code=" + payload;
    ContainsAt(u, "code=", n);
    var i := Find(u, "code=");
    assert i <= n;
    assert u[i..][..5] == "code=";
    assert u[i] == 'c' by {
      assert u[i..][..5][0] == 'c';
    }
    forall j | 0 <= j < n ensures u[j] != 'c' {
      assert u[j] == pre[j];
      assert pre[j] in pre;
    }
    assert i == n;
    assert u[i + 5..] == payload;
    assert '=' !in payload;
    ContainsNeedsChar(payload, "code=", 4, '=');
    assert Find(payload, "code=") == |payload|;
    assert payload[..|payload|] == payload;
  }

  /** `{language}/app/` occurs exactly in app mode: in editor mode its last
      `/` would lie before the fragment, where no `a` occurs. */
  lemma ModeRoundTrip(lang: Language, mode: Mode, header: bool, payload: string)
    requires UriSafe(payload)
    ensures Contains(UrlOf(lang, mode, header, payload), LanguageText(lang) + "/app/") <==> mode == AppMode
  {
    if mode == AppMode {
      AppUrlHasApp(lang, header, payload);
    } else {
      EditorUrlLacksApp(lang, header, payload);
    }
  }

  lemma AppUrlHasApp(lang: Language, header: bool, payload: string)
    ensures Contains(UrlOf(lang, AppMode, header, payload), LanguageText(lang) + "/app/")
  {
    var l, h := LanguageText(lang), HeaderFlag(AppMode, header);
    var u := UrlOf(lang, AppMode, header, payload);
    var page := l + "/" + "app" + "/#";
    Regroup("https://shinylive.io/", l, "/", "app", "/#", h, "code=", payload);
    assert page[..|l| + 5] == l + "/app/";
    ContainsInside("https://shinylive.io/", page, h + "code=" + payload, l + "/app/");
  }

  lemma EditorUrlLacksApp(lang: Language, header: bool, payload: string)
    requires UriSafe(payload)
    ensures !Contains(UrlOf(lang, EditorMode, header, payload), LanguageText(lang) + "/app/")
  {
    EditorHasNoApp(UrlOf(lang, EditorMode, header, payload), LanguageText(lang), payload);
  }

  lemma EditorHasNoApp(u: string, l: string, payload: string)
    requires UriSafe(payload) && (l == "py" || l == "r")
    requires u == "https://shinylive.io/" + l + "/editor/#" + "" + "code=" + payload
    ensures !Contains(u, l + "/app/")
  {
    var t := l + "/app/";
    var x := "https://shinylive.io/" + l + "/editor/";
    var y := "#code=" + payload;
    assert u == x + y;
    assert '/' !in payload;
    assert t[|t| - 1] == '/';
    ContainsBeforeCut(x, y, t);
    assert 'a' !in "https://shinylive.io/";
    assert 'a' !in x;
    assert t[|l| + 1] == 'a';
    ContainsNeedsChar(x, t, |l| + 1, 'a');
  }

  /** `h=0` occurs exactly when the flag was written: otherwise the only `=`
      is the one of `code=`, which follows an `e`. */
  lemma HeaderRoundTrip(lang: Language, mode: Mode, header: bool, payload: string)
    requires UriSafe(payload)
    ensures Contains(UrlOf(lang, mode, header, payload), "h=0") <==> !header && mode == AppMode
  {
    var u := UrlOf(lang, mode, header, payload);
    var page := PageOf(lang, mode);
    PageChars(lang, mode, header);
    if !header && mode == AppMode {
      assert u == page + "h=0" + ("&code=" + payload);
      ContainsAt(u, "h=0", |page|);
    } else {
      assert u == page + "code=" + payload;
      FlagAbsent(u, page, payload);
    }
  }

  lemma FlagAbsent(u: string, page: string, payload: string)
    requires UriSafe(payload) && '=' !in page
    requires u == page + "code=" + payload
    ensures !Contains(u, "h=0")
  {
    var before := page + "code";
    assert "code=" == "code" + ['='];
    Regroup4(page, "code", ['='], payload);
    assert '=' !in payload;
    OnlyAt(before, '=', payload);
    AnchoredOccurrence(u, "h=0", 1, |before|);
    assert u[|before| - 1] == 'e';
  }
}
