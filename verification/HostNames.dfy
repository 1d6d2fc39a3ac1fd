/** Reading the host of a URL-ish text, and writing a URL with another host. */
module HostNames {
  import opened Wrappers

  const WHITESPACE: string := " \t\n\r\U{000B}\U{000C}\U{001C}\U{001D}\U{001E}\U{001F}"

  function StripLeft(s: string): string {
    if s != "" && s[0] in WHITESPACE then StripLeft(s[1..]) else s
  }

  function StripRight(s: string): string {
    if s != "" && s[|s| - 1] in WHITESPACE then StripRight(s[..|s| - 1]) else s
  }

  function Strip(s: string): string {
    StripRight(StripLeft(s))
  }

  predicate Letter(c: char) {
    'a' <= c <= 'z' || 'A' <= c <= 'Z'
  }

  predicate Digit(c: char) {
    '0' <= c <= '9'
  }

  predicate SchemeChar(c: char) {
    Letter(c) || Digit(c) || c in "+.-"
  }

  function SchemeRun(s: string): (n: nat)
    ensures n <= |s|
  {
    if s != "" && SchemeChar(s[0]) then 1 + SchemeRun(s[1..]) else 0
  }

  /** Removes a leading `scheme://`. */
  function DropScheme(s: string): string {
    var n := SchemeRun(s);
    if n > 0 && Letter(s[0]) && n + 3 <= |s| && s[n..n + 3] == "://" then s[n + 3..] else s
  }

  /** The text before the first `c`, or all of it. */
  function Until(s: string, c: char): string {
    if s == "" || s[0] == c then "" else [s[0]] + Until(s[1..], c)
  }

  function Count(s: string, c: char): nat {
    if s == "" then 0 else (if s[0] == c then 1 else 0) + Count(s[1..], c)
  }

  function TrimRight(s: string, c: char): string {
    if s != "" && s[|s| - 1] == c then TrimRight(s[..|s| - 1], c) else s
  }

  function LowerChar(c: char): char {
    if 'A' <= c <= 'Z' then c - 'A' + 'a' else c
  }

  function Lower(s: string): string {
    seq(|s|, i requires 0 <= i < |s| => LowerChar(s[i]))
  }

  predicate Alphanumeric(c: char) {
    'a' <= c <= 'z' || Digit(c)
  }

  predicate HostChar(c: char) {
    Alphanumeric(c) || c in ".-"
  }

  predicate Labels(s: string) {
    && s != "" && Alphanumeric(s[0]) && Alphanumeric(s[|s| - 1])
    && forall i :: 0 <= i < |s| ==> HostChar(s[i])
  }

  /** The pattern a host must match, whose end also stands before a final newline. */
  predicate HostShape(s: string) {
    Labels(s) || (s != "" && s[|s| - 1] == '\n' && Labels(s[..|s| - 1]))
  }

  function WithoutPort(s: string): string {
    if !(s != "" && s[0] == '[') && Count(s, ':') == 1 then Until(s, ':') else s
  }

  /** The host at the front of a text, its port and what follows dropped. */
  function HostPart(s: string): string {
    Lower(TrimRight(Strip(WithoutPort(Until(Until(s, '/'), '?'))), '.'))
  }

  function NormaliseHost(raw: string): Option<string> {
    var s := Strip(raw);
    if s == "" then None
    else
      var host := HostPart(DropScheme(s));
      if host == "" || host[0] == '*' || !HostShape(host) || '.' !in host then None else Some(host)
  }

  /** A host in the form every comparison uses. */
  predicate IsHost(s: string) {
    Labels(s) && '.' in s
  }

  /** What splitting a URL gives: its scheme, its port and its path. */
  datatype Parts = Parts(scheme: string, port: Option<string>, path: string)

  predicate SchemeForm(s: string) {
    s != "" && Letter(s[0]) && forall i :: 0 <= i < |s| ==> SchemeChar(s[i])
  }

  predicate PortForm(s: string) {
    forall i :: 0 <= i < |s| ==> Digit(s[i])
  }

  /** A URL that has an authority: its path is empty or begins at a slash. */
  predicate WellSplit(p: Parts) {
    && (p.scheme == "" || SchemeForm(p.scheme))
    && (p.port.Some? ==> PortForm(p.port.value))
    && (p.path == "" || p.path[0] == '/')
  }

  function SchemeOf(p: Parts): string {
    if p.scheme == "" then "https" else p.scheme
  }

  function PortOf(p: Parts): string {
    if p.port.None? then "" else ":" + p.port.value
  }

  function WithHost(p: Parts, host: string): string {
    SchemeOf(p) + "://" + host + PortOf(p) + TrimRight(p.path, '/')
  }

  /** A rewritten URL keeps the scheme (or gets https), the port, and the path but for the slashes
      that end it. */
  lemma {:induction false} RewrittenUrl(p: Parts, host: string) returns (rest: string, slashes: string)
    ensures p.path == rest + slashes && (forall c :: c in slashes ==> c == '/') && (rest == "" || rest[|rest| - 1] != '/')
    ensures p.scheme != "" && p.port.Some? ==> WithHost(p, host) == p.scheme + "://" + host + ":" + p.port.value + rest
    ensures p.scheme != "" && p.port.None? ==> WithHost(p, host) == p.scheme + "://" + host + rest
    ensures p.scheme == "" && p.port.Some? ==> WithHost(p, host) == "https://" + host + ":" + p.port.value + rest
    ensures p.scheme == "" && p.port.None? ==> WithHost(p, host) == "https://" + host + rest
  {
    rest, slashes := TrimmedOff(p.path, '/');
    var scheme := SchemeOf(p);
    assert scheme + "://" + host + "" == scheme + "://" + host;
    if p.port.Some? {
      assert scheme + "://" + host + (":" + p.port.value) == scheme + "://" + host + ":" + p.port.value;
    }
    assert "https" + "://" == "https://";
  }

  lemma {:induction false} TrimmedOff(s: string, c: char) returns (rest: string, off: string)
    ensures s == rest + off && rest == TrimRight(s, c) && (forall d :: d in off ==> d == c) && (rest == "" || rest[|rest| - 1] != c)
    decreases |s|
  {
    if s != "" && s[|s| - 1] == c {
      rest, off := TrimmedOff(s[..|s| - 1], c);
      assert s == rest + (off + [c]);
      off := off + [c];
    } else {
      rest, off := s, "";
    }
  }

  // ── reading back what was written ──────────────────────────────────────────

  function CutPort(s: string): string {
    if Count(s, ':') == 1 then Until(s, ':') else s
  }

  /** What a reader takes for more of a host that stands right before this text. */
  function RunsOn(t: string): string {
    Lower(TrimRight(StripRight(CutPort(Until(Until(StripRight(t), '/'), '?'))), '.'))
  }

  /** What a reader takes for more of the host that was put into a split URL. */
  function Overrun(p: Parts): string {
    RunsOn(PortOf(p) + TrimRight(p.path, '/'))
  }

  lemma {:induction false} SchemeRunOf(scheme: string, rest: string)
    requires forall i :: 0 <= i < |scheme| ==> SchemeChar(scheme[i])
    ensures SchemeRun(scheme + ("://" + rest)) == |scheme|
  {
    var t := scheme + ("://" + rest);
    if scheme == "" {
      assert t[0] == ':';
    } else {
      assert t[1..] == scheme[1..] + ("://" + rest);
      SchemeRunOf(scheme[1..], rest);
    }
  }

  lemma {:induction false} SchemeDropped(scheme: string, rest: string)
    requires SchemeForm(scheme)
    ensures DropScheme(scheme + ("://" + rest)) == rest
  {
    var t := scheme + ("://" + rest);
    SchemeRunOf(scheme, rest);
    assert t[|scheme|..|scheme| + 3] == "://" && t[|scheme| + 3..] == rest;
  }

  lemma {:induction false} UntilKeeps(s: string, t: string, c: char)
    requires c !in s
    ensures Until(s + t, c) == s + Until(t, c)
  {
    if s == "" {
      assert s + t == t;
    } else {
      assert (s + t)[1..] == s[1..] + t;
      UntilKeeps(s[1..], t, c);
    }
  }

  lemma {:induction false} CountKeeps(s: string, t: string, c: char)
    requires c !in s
    ensures Count(s + t, c) == Count(t, c)
  {
    if s == "" {
      assert s + t == t;
    } else {
      assert (s + t)[1..] == s[1..] + t;
      CountKeeps(s[1..], t, c);
    }
  }

  lemma {:induction false} StripRightKeeps(s: string, t: string)
    requires s != "" && s[|s| - 1] !in WHITESPACE
    ensures StripRight(s + t) == s + StripRight(t)
    decreases |t|
  {
    if t == "" {
      assert s + t == s;
    } else if t[|t| - 1] in WHITESPACE {
      assert (s + t)[..|s + t| - 1] == s + t[..|t| - 1];
      StripRightKeeps(s, t[..|t| - 1]);
    }
  }

  lemma {:induction false} TrimRightKeeps(s: string, t: string, c: char)
    requires s != "" && s[|s| - 1] != c
    ensures TrimRight(s + t, c) == s + TrimRight(t, c)
    decreases |t|
  {
    if t == "" {
      assert s + t == s;
    } else if t[|t| - 1] == c {
      assert (s + t)[..|s + t| - 1] == s + t[..|t| - 1];
      TrimRightKeeps(s, t[..|t| - 1], c);
    }
  }

  lemma {:induction false} HostChars(h: string)
    requires Labels(h)
    ensures '/' !in h && '?' !in h && ':' !in h && h[0] != '[' && h[0] != '*'
    ensures h[0] !in WHITESPACE && h[|h| - 1] !in WHITESPACE && h[|h| - 1] != '.'
  {
  }

  /** A text that no reader cuts. */
  predicate Uncut(h: string) {
    && h != "" && '/' !in h && '?' !in h && ':' !in h && h[0] != '['
    && h[0] !in WHITESPACE && h[|h| - 1] !in WHITESPACE && h[|h| - 1] != '.'
  }

  lemma {:induction false} LowerKeeps(h: string, t: string)
    ensures Lower(h + t) == Lower(h) + Lower(t)
    ensures Labels(h) ==> Lower(h) == h
  {
  }

  lemma {:induction false} WithoutPortKeeps(h: string, t: string)
    requires Uncut(h)
    ensures WithoutPort(h + t) == h + CutPort(t)
  {
    assert (h + t)[0] == h[0];
    CountKeeps(h, t, ':');
    UntilKeeps(h, t, ':');
  }

  lemma {:induction false} StripKeeps(s: string, t: string)
    requires s != "" && s[0] !in WHITESPACE && s[|s| - 1] !in WHITESPACE
    ensures Strip(s + t) == s + StripRight(t)
  {
    assert (s + t)[0] == s[0];
    StripRightKeeps(s, t);
  }

  lemma {:induction false} HostPartRunsOn(h: string, t: string)
    requires Uncut(h)
    ensures HostPart(h + StripRight(t)) == Lower(h) + RunsOn(t)
  {
    var u := StripRight(t);
    UntilKeeps(h, u, '/');
    UntilKeeps(h, Until(u, '/'), '?');
    var front := Until(Until(u, '/'), '?');
    WithoutPortKeeps(h, front);
    StripKeeps(h, CutPort(front));
    TrimRightKeeps(h, StripRight(CutPort(front)), '.');
    LowerKeeps(h, TrimRight(StripRight(CutPort(front)), '.'));
  }

  lemma {:induction false} WrittenReads(scheme: string, h: string, t: string)
    requires SchemeForm(scheme) && IsHost(h)
    ensures NormaliseHost(scheme + ("://" + h) + t) == if HostShape(h + RunsOn(t)) then Some(h + RunsOn(t)) else None
  {
    HostChars(h);
    var front := scheme + ("://" + h);
    assert front[0] == scheme[0] && front[|front| - 1] == h[|h| - 1];
    StripKeeps(front, t);
    assert front + StripRight(t) == scheme + ("://" + (h + StripRight(t)));
    SchemeDropped(scheme, h + StripRight(t));
    HostPartRunsOn(h, t);
    LowerKeeps(h, "");
    StillDotted(h, RunsOn(t));
  }

  lemma {:induction false} StillDotted(h: string, more: string)
    requires IsHost(h)
    ensures h + more != "" && (h + more)[0] == h[0] && '.' in h + more
  {
    var k :| 0 <= k < |h| && h[k] == '.';
    assert (h + more)[k] == '.';
  }

  /** What is read of a URL whose host was replaced, however the old one was split: the new host
      and what runs on from it, if the two are a host. */
  lemma {:induction false} WithHostReads(p: Parts, host: string)
    requires (p.scheme == "" || SchemeForm(p.scheme)) && IsHost(host)
    ensures NormaliseHost(WithHost(p, host)) == if HostShape(host + Overrun(p)) then Some(host + Overrun(p)) else None
  {
    HttpsIsScheme();
    var t := PortOf(p) + TrimRight(p.path, '/');
    WrittenReads(SchemeOf(p), host, t);
    Regrouped(SchemeOf(p), "://", host, PortOf(p), TrimRight(p.path, '/'));
  }

  lemma {:induction false} Regrouped(a: string, b: string, c: string, d: string, e: string)
    ensures a + b + c + d + e == a + (b + c) + (d + e)
  {
  }

  /** So it reads back as the new host exactly when nothing runs on from it. */
  lemma {:induction false} ReadsBackExactly(p: Parts, host: string)
    requires (p.scheme == "" || SchemeForm(p.scheme)) && IsHost(host)
    ensures NormaliseHost(WithHost(p, host)) == Some(host) <==> Overrun(p) == ""
  {
    WithHostReads(p, host);
    if Overrun(p) == "" {
      assert host + Overrun(p) == host;
    } else {
      assert |host + Overrun(p)| > |host|;
    }
  }

  lemma {:induction false} HttpsIsScheme()
    ensures SchemeForm("https")
  {
  }

  // ── what runs on ───────────────────────────────────────────────────────────

  lemma {:induction false} StripRightFront(s: string)
    ensures |StripRight(s)| <= |s| && StripRight(s) == s[..|StripRight(s)|]
  {
    if s != "" && s[|s| - 1] in WHITESPACE {
      StripRightFront(s[..|s| - 1]);
    }
  }

  lemma {:induction false} TrimRightFront(s: string, c: char)
    ensures |TrimRight(s, c)| <= |s| && TrimRight(s, c) == s[..|TrimRight(s, c)|]
  {
    if s != "" && s[|s| - 1] == c {
      TrimRightFront(s[..|s| - 1], c);
    }
  }

  /** A path that is empty or begins at a slash is never taken for more of the host. */
  lemma {:induction false} SlashEnds(t: string)
    requires t == "" || t[0] == '/'
    ensures Until(StripRight(t), '/') == ""
  {
    StripRightFront(t);
  }

  lemma {:induction false} NoneCounted(s: string, c: char)
    requires c !in s
    ensures Count(s, c) == 0 && Until(s, c) == s
  {
    CountKeeps(s, "", c);
    UntilKeeps(s, "", c);
    assert s + "" == s;
  }

  /** After a port that follows the host, nothing runs on either. */
  lemma {:induction false} PortRunsOff(port: string, t: string)
    requires PortForm(port) && (t == "" || t[0] == '/')
    ensures RunsOn(":" + port + t) == ""
  {
    var front := ":" + port;
    assert front[|front| - 1] == ':' || front[|front| - 1] == port[|port| - 1];
    StripRightKeeps(front, t);
    UntilKeeps(front, StripRight(t), '/');
    SlashEnds(t);
    assert front + "" == front;
    NoneCounted(front, '?');
    assert front == [':'] + port && front[1..] == port;
    NoneCounted(port, ':');
    assert CutPort(front) == "";
  }

  lemma {:induction false} WellSplitEnds(p: Parts)
    requires WellSplit(p)
    ensures Overrun(p) == ""
  {
    TrimRightFront(p.path, '/');
    var t := TrimRight(p.path, '/');
    if p.port.Some? {
      PortRunsOff(p.port.value, t);
    } else {
      assert PortOf(p) + t == t;
      SlashEnds(t);
    }
  }

  lemma {:induction false} SchemeIsWritten(scheme: string)
    requires WrittenScheme(scheme + "://")
    ensures SchemeForm(scheme)
  {
    var s := scheme + "://";
    forall i | 0 <= i < |scheme| ensures SchemeChar(scheme[i]) {
      assert s[i] == scheme[i];
    }
    assert s[0] == scheme[0];
  }

  /** A URL whose host was replaced reads back as the new host, whatever its scheme, port and
      path, when splitting the old one found where its path begins. */
  lemma {:induction false} WithHostReadsBack(p: Parts, host: string)
    requires IsHost(host)
    requires p.scheme == "" || WrittenScheme(p.scheme + "://")
    requires p.port.Some? ==> forall i :: 0 <= i < |p.port.value| ==> '0' <= p.port.value[i] <= '9'
    requires p.path == "" || p.path[0] == '/'
    ensures NormaliseHost(WithHost(p, host)) == Some(host)
  {
    if p.scheme != "" { SchemeIsWritten(p.scheme); }
    WellSplitEnds(p);
    ReadsBackExactly(p, host);
  }

  /** What ends a host at the front of a text: a path, or a port and a path. */
  predicate EndsHost(t: string) {
    t == "" || t[0] == '/' || (t[0] == ':' && PortForm(Until(t[1..], '/')))
  }

  lemma {:induction false} PortThenPath(port: string, path: string)
    requires port == "" || (port[0] == ':' && forall i :: 0 < i < |port| ==> '0' <= port[i] <= '9')
    requires path == "" || path[0] == '/'
    ensures EndsHost(port + path)
  {
    if port == "" {
      assert port + path == path;
    } else {
      assert (port + path)[1..] == port[1..] + path;
      UntilKeeps(port[1..], path, '/');
      assert port[1..] + "" == port[1..];
    }
  }

  /** An address split into a path alone: the whole old host runs on from the new one. */
  lemma {:induction false} PathAloneRunsOn(host: string, path: string)
    requires IsHost(host) && EndsHost(path)
    ensures Overrun(Parts("", None, host + path)) == host
  {
    HostChars(host);
    TrimRightKeeps(host, path, '/');
    TrimRightFront(path, '/');
    var t := TrimRight(path, '/');
    assert PortOf(Parts("", None, host + path)) + (host + t) == host + t;
    StripRightKeeps(host, t);
    StripRightFront(t);
    HostStands(host, path, StripRight(t));
  }

  lemma {:induction false} HostStands(h: string, path: string, t: string)
    requires Labels(h) && EndsHost(path) && |t| <= |path| && t == path[..|t|]
    ensures Lower(TrimRight(StripRight(CutPort(Until(Until(h + t, '/'), '?'))), '.')) == h
  {
    HostChars(h);
    UntilKeeps(h, t, '/');
    UntilKeeps(h, Until(t, '/'), '?');
    var front := Until(Until(t, '/'), '?');
    PortIsCut(path, t);
    NothingCounts(h, front);
    LowerKeeps(h, "");
    assert h + "" == h;
  }

  lemma {:induction false} NothingCounts(h: string, front: string)
    requires Labels(h) && CutPort(front) == ""
    ensures CutPort(h + front) == h
  {
    HostChars(h);
    CountKeeps(h, front, ':');
    UntilKeeps(h, front, ':');
    assert h + "" == h;
  }

  lemma {:induction false} UntilFront(s: string, n: nat, c: char)
    requires n <= |s|
    ensures |Until(s[..n], c)| <= |Until(s, c)| && Until(s[..n], c) == Until(s, c)[..|Until(s[..n], c)|]
  {
    if n > 0 && s[0] != c {
      assert s[..n][1..] == s[1..][..n - 1];
      UntilFront(s[1..], n - 1, c);
    }
  }

  lemma {:induction false} PortIsCut(path: string, t: string)
    requires EndsHost(path) && |t| <= |path| && t == path[..|t|]
    ensures CutPort(Until(Until(t, '/'), '?')) == ""
  {
    if t == "" || t[0] == '/' {
    } else {
      var port := Until(t[1..], '/');
      assert t[1..] == path[1..][..|t| - 1];
      UntilFront(path[1..], |t| - 1, '/');
      assert Until(t, '/') == [':'] + port;
      assert ([':'] + port)[1..] == port;
      NoneCounted(port, '?');
      NoneCounted(port, ':');
    }
  }

  /** An address whose host is taken for the scheme: the port, if any, runs on from the new host. */
  lemma {:induction false} PortRunsOn(scheme: string, port: string, path: string)
    requires PortForm(port) && (path == "" || path[0] == '/')
    ensures Overrun(Parts(scheme, None, port + path)) == port
  {
    var p := Parts(scheme, None, port + path);
    if port == "" {
      assert port + path == path && WellSplit(p.(scheme := ""));
      WellSplitEnds(p.(scheme := ""));
    } else {
      TrimRightKeeps(port, path, '/');
      TrimRightFront(path, '/');
      assert "" + TrimRight(port + path, '/') == port + TrimRight(path, '/');
      DigitsRunOn(port, TrimRight(path, '/'));
    }
  }

  lemma {:induction false} DigitsRunOn(port: string, t: string)
    requires PortForm(port) && port != "" && (t == "" || t[0] == '/')
    ensures RunsOn(port + t) == port
  {
    StripRightKeeps(port, t);
    UntilKeeps(port, StripRight(t), '/');
    SlashEnds(t);
    assert port + "" == port;
    NoneCounted(port, '?');
    NoneCounted(port, ':');
    DigitsStand(port);
  }

  lemma {:induction false} DigitsStand(port: string)
    requires PortForm(port) && port != ""
    ensures Lower(TrimRight(StripRight(port), '.')) == port
  {
  }

  lemma {:induction false} NormalisedIsHost(raw: string)
    requires NormaliseHost(raw).Some?
    ensures var h := NormaliseHost(raw).value;
            HostShape(h) && '.' in h && (IsHost(h) || h[|h| - 1] == '\n')
  {
  }

  // ── what is a host, spelled out ────────────────────────────────────────────

  /** A letter, large or small, or a figure. */
  ghost predicate AtEnds(c: char) {
    'a' <= c <= 'z' || 'A' <= c <= 'Z' || '0' <= c <= '9'
  }

  /** A host as people write it: letters, figures, dots and hyphens, with a dot inside and a letter
      or a figure at both ends. */
  ghost predicate WrittenHost(w: string) {
    && w != "" && '.' in w
    && (forall i :: 0 <= i < |w| ==> AtEnds(w[i]) || w[i] == '.' || w[i] == '-')
    && AtEnds(w[0]) && AtEnds(w[|w| - 1])
  }

  /** The same with small letters, which stand 32 places after the large ones. */
  ghost predicate InSmall(h: string, w: string) {
    |h| == |w| && forall i :: 0 <= i < |w| ==> h[i] as int == if 'A' <= w[i] <= 'Z' then w[i] as int + 32 else w[i] as int
  }

  lemma {:induction false} WrittenIsHost(w: string, h: string)
    requires WrittenHost(w) && InSmall(h, w)
    ensures Uncut(w) && Lower(w) == h && IsHost(h)
  {
    forall i | 0 <= i < |w| ensures h[i] == LowerChar(w[i]) && HostChar(h[i]) && (AtEnds(w[i]) ==> Alphanumeric(h[i])) {
    }
    assert Lower(w) == h;
    var k :| 0 <= k < |w| && w[k] == '.';
    assert h[k] == '.';
    Unharmed(w);
  }

  lemma {:induction false} Unharmed(w: string)
    requires WrittenHost(w)
    ensures Uncut(w)
  {
  }

  /** White space: tab to carriage return, and the separators up to the space itself. */
  ghost predicate Blank(s: string) {
    forall i :: 0 <= i < |s| ==> 9 <= s[i] as int <= 13 || 28 <= s[i] as int <= 32
  }

  /** A scheme and what follows it. */
  ghost predicate WrittenScheme(s: string) {
    && |s| > 3 && s[|s| - 3..] == "://" && ('a' <= s[0] <= 'z' || 'A' <= s[0] <= 'Z')
    && forall i :: 0 <= i < |s| - 3 ==> AtEnds(s[i]) || s[i] == '+' || s[i] == '.' || s[i] == '-'
  }

  ghost predicate WrittenPort(s: string) {
    |s| > 1 && s[0] == ':' && forall i :: 0 < i < |s| ==> '0' <= s[i] <= '9'
  }

  ghost predicate WrittenRest(s: string) {
    Blank(s) || s[0] == '/' || s[0] == '?'
  }

  /** Every ordinary address names its host, with small letters: with a scheme or none, with a port
      or none, with or without a path or a query, and with white space around it. */
  lemma {:induction false} AddressNamesHost(before: string, scheme: string, w: string, port: string, rest: string, h: string)
    requires Blank(before) && (scheme == "" || WrittenScheme(scheme)) && WrittenHost(w) && InSmall(h, w)
    requires (port == "" || WrittenPort(port)) && WrittenRest(rest)
    ensures NormaliseHost(before + scheme + w + port + rest) == Some(h)
  {
    WrittenIsHost(w, h);
    AddressStripped(before, scheme, w, port + rest);
    Regrouped(before, scheme, w, port, rest);
    Bracketed(before, scheme + w, port + rest);
    Bracketed(before, scheme, w);
    AddressDropped(scheme, w, port, rest);
    NothingRunsOn(port, rest);
    AddressRead(before + (scheme + w + (port + rest)), scheme, w, port + rest, h);
  }

  lemma {:induction false} Bracketed(a: string, b: string, c: string)
    ensures a + b + c == a + (b + c)
  {
  }

  lemma {:induction false} AddressRead(raw: string, scheme: string, w: string, t: string, h: string)
    requires Strip(raw) == scheme + w + StripRight(t) && DropScheme(scheme + w + StripRight(t)) == w + StripRight(t)
    requires Uncut(w) && Lower(w) == h && IsHost(h) && RunsOn(t) == ""
    ensures NormaliseHost(raw) == Some(h)
  {
    HostPartRunsOn(w, t);
    assert h + "" == h;
    HostChars(h);
    assert (scheme + w + StripRight(t))[|scheme|] == w[0];
  }

  lemma {:induction false} AddressDropped(scheme: string, w: string, port: string, rest: string)
    requires (scheme == "" || WrittenScheme(scheme)) && Uncut(w) && (port == "" || WrittenPort(port)) && WrittenRest(rest)
    ensures DropScheme(scheme + w + StripRight(port + rest)) == w + StripRight(port + rest)
  {
    var tail := w + StripRight(port + rest);
    assert scheme + w + StripRight(port + rest) == scheme + tail;
    if scheme == "" {
      assert scheme + tail == tail;
      NoSchemeDropped(w, port, rest);
    } else {
      var name := scheme[..|scheme| - 3];
      assert scheme == name + "://" && SchemeForm(name);
      assert scheme + tail == name + ("://" + tail);
      SchemeDropped(name, tail);
    }
  }

  lemma {:induction false} LeadingStripped(before: string, s: string)
    requires Blank(before) && s != "" && s[0] !in WHITESPACE
    ensures StripLeft(before + s) == s
  {
    if before == "" {
      assert before + s == s;
    } else {
      assert (before + s)[1..] == before[1..] + s;
      LeadingStripped(before[1..], s);
    }
  }

  lemma {:induction false} AddressStripped(before: string, scheme: string, w: string, t: string)
    requires Blank(before) && Uncut(w) && (scheme == "" || WrittenScheme(scheme))
    ensures Strip(before + (scheme + w + t)) == scheme + w + StripRight(t)
  {
    var front := scheme + w;
    assert front[|front| - 1] == w[|w| - 1];
    assert front[0] == if scheme == "" then w[0] else scheme[0];
    assert (front + t)[0] == front[0];
    LeadingStripped(before, front + t);
    StripRightKeeps(front, t);
  }

  lemma {:induction false} SchemeRunFront(s: string)
    ensures forall i :: 0 <= i < SchemeRun(s) ==> SchemeChar(s[i])
  {
    if s != "" && SchemeChar(s[0]) {
      SchemeRunFront(s[1..]);
    }
  }

  /** Nothing of a port and a path is left of a colon that two slashes follow, after such a run. */
  lemma {:induction false} NoSchemeDropped(w: string, port: string, rest: string)
    requires Uncut(w) && (port == "" || WrittenPort(port)) && WrittenRest(rest)
    ensures var s := w + StripRight(port + rest); DropScheme(s) == s
  {
    var s, all := w + StripRight(port + rest), w + (port + rest);
    StripRightFront(port + rest);
    assert s == all[..|s|];
    var n := SchemeRun(s);
    SchemeRunFront(s);
    if n + 3 <= |s| {
      assert s[n..n + 3] != "://" by {
        assert s[n..n + 3][0] == s[n] == all[n] && s[n..n + 3][1] == s[n + 1] == all[n + 1];
        NoColonSlash(w, port, rest, n);
      }
    }
  }

  lemma {:induction false} NoColonSlash(w: string, port: string, rest: string, n: nat)
    requires Uncut(w) && (port == "" || WrittenPort(port)) && WrittenRest(rest)
    requires var all := w + (port + rest); n + 1 < |all| && forall i :: 0 <= i < n ==> SchemeChar(all[i])
    ensures var all := w + (port + rest); all[n] != ':' || all[n + 1] != '/'
  {
    var all := w + (port + rest);
    if n < |w| {
      assert all[n] == w[n];
    } else if port != "" {
      assert all[|w|] == port[0];
      assert n == |w| ==> all[n + 1] == port[1];
    } else {
      assert port + rest == rest;
      assert all[|w|] == rest[0] && all[n] == rest[n - |w|];
    }
  }

  lemma {:induction false} NothingRunsOn(port: string, rest: string)
    requires (port == "" || WrittenPort(port)) && WrittenRest(rest)
    ensures RunsOn(port + rest) == ""
  {
    StripRightFront(rest);
    var left := StripRight(rest);
    RestIsCut(rest, left);
    if port == "" {
      assert port + rest == rest;
    } else {
      StripRightKeeps(port, rest);
      UntilKeeps(port, left, '/');
      UntilKeeps(port, Until(left, '/'), '?');
      assert port + "" == port;
      assert port == [':'] + port[1..];
      NoneCounted(port[1..], ':');
      assert CutPort(port) == "";
    }
  }

  lemma {:induction false} RestIsCut(rest: string, left: string)
    requires WrittenRest(rest) && left == StripRight(rest) && |left| <= |rest| && left == rest[..|left|]
    ensures Until(Until(left, '/'), '?') == ""
  {
    if Blank(rest) {
      AllStripped(rest);
    }
  }

  lemma {:induction false} AllStripped(s: string)
    requires Blank(s)
    ensures StripRight(s) == ""
  {
    if s != "" {
      AllStripped(s[..|s| - 1]);
    }
  }

  /** And whatever is read as a host is one in small letters, but for a newline that the pattern
      lets through at its end. */
  lemma {:induction false} OnlyHostsAreRead(raw: string)
    requires NormaliseHost(raw).Some?
    ensures var h := NormaliseHost(raw).value;
            var bare := if h[|h| - 1] == '\n' then h[..|h| - 1] else h;
            WrittenHost(bare) && InSmall(bare, bare)
  {
    NormalisedIsHost(raw);
    BareHost(NormaliseHost(raw).value);
  }

  lemma {:induction false} BareHost(h: string)
    requires HostShape(h) && '.' in h
    ensures var bare := if h[|h| - 1] == '\n' then h[..|h| - 1] else h; WrittenHost(bare) && InSmall(bare, bare)
  {
    var bare := if h[|h| - 1] == '\n' then h[..|h| - 1] else h;
    var k :| 0 <= k < |h| && h[k] == '.';
    assert bare[k] == '.';
    LabelsAreWritten(bare);
  }

  lemma {:induction false} LabelsAreWritten(s: string)
    requires IsHost(s)
    ensures WrittenHost(s) && InSmall(s, s)
  {
  }
}
