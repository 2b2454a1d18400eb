/** The managed region of a guidance file: finding it, and replacing it without touching a byte
    around it (generate/managed.go). */
module Managed {
  import opened Records
  import Markdown

  const BEGIN := "<!-- specd:begin schema="
  const END := "<!-- specd:end -->"

  /** What is rendered; the hash identifies the body. */
  datatype Guidance = Guidance(version: string, hash: string, body: string)

  /** SHA-256 of a body, and the scan of a begin marker for its declared hash. */
  datatype Scheme = Scheme(hash: string -> string, declared: string -> Option<string>)

  datatype Region = Region(start: nat, end: nat)

  function Header(g: Guidance): string {
    BEGIN + g.version + " hash=" + g.hash + " -->"
  }

  function Content(g: Guidance): string {
    "\n" + g.body + END + "\n"
  }

  function Wrap(g: Guidance): string {
    Header(g) + Content(g)
  }

  // ---------------------------------------------------------------------------------
  // Occurrences
  // ---------------------------------------------------------------------------------

  predicate At(s: string, m: string, i: nat) {
    i + |m| <= |s| && s[i..i + |m|] == m
  }

  /** strings.Index */
  function Index(s: string, m: string): (i: Option<nat>)
    ensures i.Some? ==> At(s, m, i.value) && forall k :: 0 <= k < i.value ==> !At(s, m, k)
    ensures i.None? ==> forall k :: 0 <= k <= |s| ==> !At(s, m, k)
  {
    FirstFrom(s, m, 0)
  }

  function FirstFrom(s: string, m: string, from: nat): (i: Option<nat>)
    requires from <= |s| + 1 && forall k :: 0 <= k < from ==> !At(s, m, k)
    ensures i.Some? ==> At(s, m, i.value) && forall k :: 0 <= k < i.value ==> !At(s, m, k)
    ensures i.None? ==> forall k :: 0 <= k <= |s| ==> !At(s, m, k)
    decreases |s| + 1 - from
  {
    if from > |s| then None
    else if At(s, m, from) then Some(from)
    else FirstFrom(s, m, from + 1)
  }

  /** strings.Count: occurrences that do not overlap, from the left. */
  function Count(s: string, m: string): nat
    requires m != ""
    decreases |s|
  {
    match Index(s, m)
    case None => 0
    case Some(i) => 1 + Count(s[i + |m|..], m)
  }

  /** A marker: it starts with '<', has no other, and is one line. */
  predicate Marker(m: string) {
    m != "" && m[0] == '<' && forall k :: 0 < k < |m| ==> m[k] != '<' && m[k] != '\n'
  }

  predicate Free(s: string, m: string) {
    forall k :: 0 <= k <= |s| ==> !At(s, m, k)
  }

  lemma Markers()
    ensures Marker(BEGIN) && Marker(END) && BEGIN[4..] != END[4..]
  {
  }

  lemma NoneCounted(s: string, m: string)
    requires m != ""
    ensures Count(s, m) == 0 <==> Free(s, m)
  {
  }

  /** The one place a marker occurs. */
  ghost predicate Only(s: string, m: string, i: nat) {
    At(s, m, i) && forall k :: 0 <= k <= |s| && At(s, m, k) ==> k == i
  }

  lemma AtSuffix(s: string, m: string, from: nat, k: nat)
    requires from <= |s|
    ensures At(s[from..], m, k) <==> At(s, m, from + k)
  {
    if from + k + |m| <= |s| {
      assert s[from..][k..k + |m|] == s[from + k..from + k + |m|];
    }
  }

  lemma NoOverlap(s: string, m: string, first: nat, k: nat)
    requires Marker(m) && At(s, m, first) && first < k < first + |m|
    ensures !At(s, m, k)
  {
    assert s[first..first + |m|][k - first] == s[k];
    if k + |m| <= |s| { assert s[k..k + |m|][0] == s[k]; }
  }

  /** One occurrence is counted exactly when it is the only one. */
  lemma OneCounted(s: string, m: string, i: nat)
    requires Marker(m) && At(s, m, i)
    ensures Count(s, m) == 1 <==> Only(s, m, i)
    ensures Count(s, m) == 1 ==> Index(s, m) == Some(i)
  {
    var first := Index(s, m).value;
    var rest := s[first + |m|..];
    hide At, Index, Count, Free, Marker, Only;
    CountUnfold(s, m, first);
    MarkerIsText(m);
    NoneCounted(rest, m);
    if Free(rest, m) {
      NothingBefore(s, m, first);
      OnlyFirst(s, m, first);
      SameOnly(s, m, first, i);
    }
    if Only(s, m, i) {
      SameOnly(s, m, i, first);
      NothingAfter(s, m, first);
    }
  }

  lemma SameOnly(s: string, m: string, i: nat, j: nat)
    requires Only(s, m, i) && At(s, m, j) && m != ""
    ensures i == j
  {
    BoundedAt(s, m, j);
  }

  lemma OnlyFirst(s: string, m: string, first: nat)
    requires Marker(m) && At(s, m, first) && first + |m| <= |s|
    requires Free(s[first + |m|..], m) && forall k :: 0 <= k < first ==> !At(s, m, k)
    ensures Only(s, m, first)
  {
    hide At, Free, Marker;
    BoundedAt(s, m, first);
    forall k | 0 <= k <= |s| && At(s, m, k) ensures k == first {
      if first < k < first + |m| { NoOverlap(s, m, first, k); }
      if first + |m| <= k {
        AtSuffix(s, m, first + |m|, k - first - |m|);
        FreeAt(s[first + |m|..], m, k - first - |m|);
      }
    }
  }

  lemma NothingAfter(s: string, m: string, first: nat)
    requires m != "" && Only(s, m, first) && first + |m| <= |s|
    ensures Free(s[first + |m|..], m)
  {
    hide At, Free;
    var rest := s[first + |m|..];
    forall k | 0 <= k <= |rest| ensures !At(rest, m, k) { AtSuffix(s, m, first + |m|, k); }
    IsFree(rest, m);
  }

  lemma MarkerIsText(m: string)
    requires Marker(m)
    ensures m != ""
  {
  }

  lemma CountUnfold(s: string, m: string, first: nat)
    requires Marker(m) && Index(s, m) == Some(first)
    ensures first + |m| <= |s| && At(s, m, first) && Count(s, m) == 1 + Count(s[first + |m|..], m)
  {
  }

  lemma NothingBefore(s: string, m: string, first: nat)
    requires Index(s, m) == Some(first)
    ensures forall k :: 0 <= k < first ==> !At(s, m, k)
  {
  }

  lemma FreeAt(s: string, m: string, k: nat)
    requires Free(s, m) && k <= |s|
    ensures !At(s, m, k)
  {
  }

  lemma IsFree(s: string, m: string)
    requires forall k :: 0 <= k <= |s| ==> !At(s, m, k)
    ensures Free(s, m)
  {
  }

  /** Where one text may be put before another without a marker arising across the boundary. */
  predicate Seam(a: string, b: string) {
    a == "" || b == "" || a[|a| - 1] == '\n' || b[0] == '<' || b[0] == '\n'
  }

  lemma NotAcross(a: string, b: string, m: string, k: nat)
    requires Marker(m) && Seam(a, b) && k < |a| < k + |m|
    ensures !At(a + b, m, k)
  {
    var s := a + b;
    if k + |m| <= |s| {
      assert s[k..k + |m|][|a| - k] == s[|a|] == b[0];
      assert s[k..k + |m|][|a| - 1 - k] == s[|a| - 1] == a[|a| - 1];
    }
  }

  /** Over a seam, markers occur exactly where they did. */
  lemma AtSeam(a: string, b: string, m: string, k: nat)
    requires Marker(m) && Seam(a, b)
    ensures At(a + b, m, k) <==> At(a, m, k) || (k >= |a| && At(b, m, k - |a|))
  {
    hide Marker, Seam;
    var s := a + b;
    if k < |a| < k + |m| {
      NotAcross(a, b, m, k);
    } else if k + |m| <= |a| {
      assert s[k..k + |m|] == a[k..k + |m|];
      MarkerIsText(m);
    } else if k - |a| + |m| <= |b| {
      assert s[k..k + |m|] == b[k - |a|..k - |a| + |m|];
    }
  }

  lemma OnlyAfter(a: string, b: string, m: string, i: nat)
    requires Marker(m) && Seam(a, b) && Free(a, m) && Only(b, m, i)
    ensures Only(a + b, m, |a| + i)
  {
    hide Marker, Seam;
    AtSeam(a, b, m, |a| + i);
    forall k | 0 <= k <= |a + b| && At(a + b, m, k) ensures k == |a| + i {
      AtSeam(a, b, m, k);
      BoundedAt(a, m, k);
      BoundedAt(b, m, k - |a|);
    }
  }

  lemma OnlyBefore(a: string, b: string, m: string, i: nat)
    requires Marker(m) && Seam(a, b) && Only(a, m, i) && Free(b, m)
    ensures Only(a + b, m, i)
  {
    hide Marker, Seam;
    AtSeam(a, b, m, i);
    forall k | 0 <= k <= |a + b| && At(a + b, m, k) ensures k == i {
      AtSeam(a, b, m, k);
      BoundedAt(a, m, k);
      BoundedAt(b, m, k - |a|);
    }
  }

  lemma FreeBoth(a: string, b: string, m: string)
    requires Marker(m) && Seam(a, b) && Free(a, m) && Free(b, m)
    ensures Free(a + b, m)
  {
    hide Marker, Seam;
    forall k | 0 <= k <= |a + b| ensures !At(a + b, m, k) {
      AtSeam(a, b, m, k);
      BoundedAt(a, m, k);
      BoundedAt(b, m, k - |a|);
    }
  }

  lemma BoundedAt(s: string, m: string, k: int)
    ensures k >= 0 && At(s, m, k) ==> k <= |s|
  {
  }

  // ---------------------------------------------------------------------------------
  // locate
  // ---------------------------------------------------------------------------------

  function TrimSuffix(s: string, suffix: string): string {
    if |suffix| <= |s| && s[|s| - |suffix|..] == suffix then s[..|s| - |suffix|] else s
  }

  /** The one managed region, or a refusal: markers duplicated, unbalanced or inverted, a marker
      that declares nothing, or bytes that do not match their declared hash. */
  function Locate(scheme: Scheme, content: string): Result<Option<Region>, string> {
    var begins, ends := Count(content, BEGIN), Count(content, END);
    if begins == 0 && ends == 0 then Ok(None)
    else if begins != 1 || ends != 1 then Err("managed_markers_ambiguous")
    else
      var start, last := Index(content, BEGIN), Index(content, END);
      if start.None? || last.None? || last.value + |END| <= start.value then Err("managed_markers_ambiguous")
      else
        var stop := last.value + |END|;
        var end := if stop < |content| && content[stop] == '\n' then stop + 1 else stop;
        match Declared(scheme, content[start.value..end])
        case Err(code) => Err(code)
        case Ok(_) => Ok(Some(Region(start.value, end)))
  }

  /** The region's own check: header, declared hash, body. */
  function Declared(scheme: Scheme, region: string): Result<string, string> {
    var line := Index(region, "\n");
    if line.None? then Err("managed_markers_ambiguous")
    else
      var declared := scheme.declared(Markdown.TrimSpace(region[..line.value]));
      var body := TrimSuffix(TrimSuffix(region[line.value + 1..], "\n"), END);
      if declared.None? then Err("managed_markers_ambiguous")
      else if scheme.hash(body) != declared.value then Err("managed_hash_drift")
      else Ok(body)
  }

  predicate Plain(s: string) {
    forall k :: 0 <= k < |s| ==> s[k] != '<' && s[k] != '\n'
  }

  /** What rendering produces: a header of one line that declares the body's hash, and a body
      without markers. */
  ghost predicate Rendered(scheme: Scheme, g: Guidance) {
    && Plain(g.version) && Plain(g.hash)
    && scheme.declared(Header(g)) == Some(g.hash) && scheme.hash(g.body) == g.hash
    && Free(g.body, BEGIN) && Free(g.body, END)
  }

  /** A text whose only '<' is its first character holds a marker nowhere else. */
  lemma LoneMark(h: string, m: string, k: nat)
    requires Marker(m) && forall j :: 0 < j < |h| ==> h[j] != '<'
    ensures At(h, m, k) ==> k == 0
  {
    if k + |m| <= |h| { assert h[k..k + |m|][0] == h[k]; }
  }

  lemma HeaderShape(g: Guidance)
    requires Plain(g.version) && Plain(g.hash)
    ensures Header(g) != "" && Header(g)[0] == '<' && Header(g)[|Header(g)| - 1] == '>'
    ensures forall k :: 0 < k < |Header(g)| ==> Header(g)[k] != '<'
    ensures forall k :: 0 <= k < |Header(g)| ==> Header(g)[k] != '\n'
    ensures BEGIN <= Header(g)
  {
    assert Plain(" hash=") && Plain(" -->") && Marker(BEGIN);
    var a := BEGIN + g.version;
    var b := a + " hash=";
    var c := b + g.hash;
    assert Header(g) == c + " -->";
  }

  lemma HeaderMarks(g: Guidance)
    requires Plain(g.version) && Plain(g.hash)
    ensures Only(Header(g), BEGIN, 0) && Free(Header(g), END)
  {
    Markers();
    HeaderShape(g);
    var h := Header(g);
    assert h[0..0 + |BEGIN|] == BEGIN;
    forall k | 0 <= k <= |h| ensures At(h, BEGIN, k) ==> k == 0 { LoneMark(h, BEGIN, k); }
    assert BEGIN[11] == 'b' && END[11] == 'e';
    forall k | 0 <= k <= |h| ensures !At(h, END, k) {
      LoneMark(h, END, k);
      if k == 0 && |END| <= |h| { assert h[0..0 + |END|][11] == h[11] == BEGIN[11]; }
    }
  }

  lemma Newline(m: string)
    requires Marker(m)
    ensures Free("\n", m)
  {
  }

  lemma EndMarks()
    ensures Only(END, END, 0) && Free(END, BEGIN)
  {
    Markers();
    assert END[0..0 + |END|] == END;
    forall k | 0 <= k <= |END| ensures At(END, END, k) ==> k == 0 { LoneMark(END, END, k); }
    assert |BEGIN| > |END|;
  }

  /** The wrapped region holds each marker once. */
  lemma WrapMarks(g: Guidance)
    requires Plain(g.version) && Plain(g.hash) && Free(g.body, BEGIN) && Free(g.body, END)
    ensures Only(Wrap(g), BEGIN, 0) && Only(Wrap(g), END, |Header(g)| + 1 + |g.body|)
  {
    hide At, Free, Only, Marker;
    Markers();
    HeaderMarks(g);
    EndMarks();
    Newline(BEGIN);
    Newline(END);
    var front := "\n" + g.body;
    FreeBoth("\n", g.body, BEGIN);
    FreeBoth("\n", g.body, END);
    FreeBoth(front, END, BEGIN);
    OnlyAfter(front, END, END, 0);
    FreeBoth(front + END, "\n", BEGIN);
    OnlyBefore(front + END, "\n", END, |front|);
    assert Content(g) == front + END + "\n" && Content(g)[0] == '\n';
    OnlyBefore(Header(g), Content(g), BEGIN, 0);
    OnlyAfter(Header(g), Content(g), END, |front|);
  }

  lemma HeaderTrims(h: string)
    requires h != "" && h[0] == '<' && h[|h| - 1] == '>'
    ensures Markdown.TrimSpace(h) == h
  {
  }

  lemma FirstNewline(h: string, rest: string)
    requires forall k :: 0 <= k < |h| ==> h[k] != '\n'
    requires rest != "" && rest[0] == '\n'
    ensures Index(h + rest, "\n") == Some(|h|)
  {
    var s := h + rest;
    assert s[|h|..|h| + 1] == "\n";
    forall k | 0 <= k < |h| ensures !At(s, "\n", k) { assert s[k..k + 1][0] == h[k]; }
    var i := Index(s, "\n");
    assert At(s, "\n", |h|);
  }

  lemma DeclaredOfWrap(scheme: Scheme, g: Guidance)
    requires Rendered(scheme, g)
    ensures Declared(scheme, Wrap(g)) == Ok(g.body)
  {
    hide Free, Index, Header, Content, Wrap, TrimSuffix;
    HeaderShape(g);
    HeaderTrims(Header(g));
    WrapCuts(g);
    FirstNewline(Header(g), Content(g));
    Suffixed(g.body + END, "\n");
    Suffixed(g.body, END);
  }

  lemma WrapCuts(g: Guidance)
    ensures Content(g) != "" && Content(g)[0] == '\n' && Wrap(g) == Header(g) + Content(g)
    ensures Wrap(g)[..|Header(g)|] == Header(g) && |Wrap(g)| > |Header(g)|
    ensures Wrap(g)[|Header(g)| + 1..] == g.body + END + "\n"
  {
    hide Header;
    assert Content(g)[1..] == g.body + END + "\n";
  }

  lemma Suffixed(s: string, suffix: string)
    ensures TrimSuffix(s + suffix, suffix) == s
  {
    assert (s + suffix)[|s|..] == suffix && (s + suffix)[..|s|] == s;
  }

  /** locate inverts wrap, whatever marker-free text surrounds the region. */
  lemma LocateInvertsWrap(scheme: Scheme, g: Guidance, before: string, after: string)
    requires Rendered(scheme, g)
    requires Free(before, BEGIN) && Free(before, END) && Free(after, BEGIN) && Free(after, END)
    ensures Locate(scheme, before + Wrap(g) + after) == Ok(Some(Region(|before|, |before| + |Wrap(g)|)))
    ensures Count(before + Wrap(g) + after, BEGIN) == 1 && Count(before + Wrap(g) + after, END) == 1
  {
    hide *;
    var content := before + Wrap(g) + after;
    var at := |Header(g)| + 1 + |g.body|;
    Markers();
    WrapMarks(g) by { RenderedParts(scheme, g); }
    WrapSeams(scheme, g, before, after);
    OnlyAfter(before, Wrap(g), BEGIN, 0);
    OnlyAfter(before, Wrap(g), END, at);
    OnlyBefore(before + Wrap(g), after, BEGIN, |before|);
    OnlyBefore(before + Wrap(g), after, END, |before| + at);
    OnlyIsAt(content, BEGIN, |before|);
    OnlyIsAt(content, END, |before| + at);
    OneCounted(content, BEGIN, |before|);
    OneCounted(content, END, |before| + at);
    assert content[|before|..|before| + |Wrap(g)|] == Wrap(g);
    DeclaredOfWrap(scheme, g);
    LocateOne(scheme, content, |before|, |before| + at, g.body);
  }

  lemma RenderedParts(scheme: Scheme, g: Guidance)
    requires Rendered(scheme, g)
    ensures Plain(g.version) && Plain(g.hash) && Free(g.body, BEGIN) && Free(g.body, END)
  {
  }

  lemma OnlyIsAt(s: string, m: string, i: nat)
    requires Only(s, m, i)
    ensures At(s, m, i)
  {
  }

  lemma WrapSeams(scheme: Scheme, g: Guidance, before: string, after: string)
    requires Rendered(scheme, g)
    ensures Seam(before, Wrap(g)) && Seam(before + Wrap(g), after)
    ensures var at := |Header(g)| + 1 + |g.body|;
            at + |END| + 1 == |Wrap(g)| && Wrap(g)[at + |END|] == '\n'
            && (before + Wrap(g) + after)[|before| + at + |END|] == '\n'
  {
    hide Free;
    HeaderShape(g);
    assert Wrap(g)[0] == '<' && Wrap(g)[|Wrap(g)| - 1] == '\n';
  }

  /** A document with one marker of each kind, followed by a line break, and a region that
      declares its body. */
  lemma LocateOne(scheme: Scheme, content: string, start: nat, last: nat, body: string)
    requires Count(content, BEGIN) == 1 && Count(content, END) == 1
    requires Index(content, BEGIN) == Some(start) && Index(content, END) == Some(last)
    requires start < last + |END| < |content| && content[last + |END|] == '\n'
    requires Declared(scheme, content[start..last + |END| + 1]) == Ok(body)
    ensures Locate(scheme, content) == Ok(Some(Region(start, last + |END| + 1)))
  {
    hide Count, Index, Declared;
  }

  /** Around a located region there is no other marker. */
  lemma SidesAreFree(scheme: Scheme, content: string, r: Region)
    requires Locate(scheme, content) == Ok(Some(r))
    ensures r.start <= r.end <= |content|
    ensures var before, after := content[..r.start], content[r.end..];
            Free(before, BEGIN) && Free(before, END) && Free(after, BEGIN) && Free(after, END)
  {
    hide Free, Marker, Declared, Count;
    Markers();
    var start, last := Index(content, BEGIN).value, Index(content, END).value;
    OneCounted(content, BEGIN, start);
    OneCounted(content, END, last);
    MarkersApart(content, start, last);
    SideFree(content, BEGIN, start, r.start, r.end);
    SideFree(content, END, last, r.start, r.end);
  }

  lemma MarkersApart(content: string, start: nat, last: nat)
    requires At(content, BEGIN, start) && At(content, END, last) && last + |END| > start
    ensures last > start
  {
    Markers();
    assert BEGIN[11] == 'b' && END[11] == 'e';
    if last < start < last + |END| { CharAt(content, END, last, start - last); }
    CharAt(content, END, last, 11);
    CharAt(content, BEGIN, start, 11);
    CharAt(content, BEGIN, start, 0);
  }

  lemma CharAt(s: string, m: string, i: nat, k: nat)
    requires At(s, m, i) && k < |m|
    ensures i + k < |s| && s[i + k] == m[k]
  {
    assert s[i..i + |m|][k] == s[i + k];
  }

  lemma AtPrefix(s: string, m: string, n: nat, k: nat)
    requires n <= |s|
    ensures At(s[..n], m, k) <==> At(s, m, k) && k + |m| <= n
  {
    if k + |m| <= n { assert s[..n][k..k + |m|] == s[k..k + |m|]; }
  }

  lemma SideFree(content: string, m: string, i: nat, start: nat, end: nat)
    requires Marker(m) && Only(content, m, i) && start <= i < end <= |content|
    ensures Free(content[..start], m) && Free(content[end..], m)
  {
    hide Marker, At;
    MarkerIsText(m);
    forall k | 0 <= k <= start ensures !At(content[..start], m, k) {
      AtPrefix(content, m, start, k);
    }
    forall k | 0 <= k <= |content| - end ensures !At(content[end..], m, k) {
      AtSuffix(content, m, end, k);
    }
  }

  // ---------------------------------------------------------------------------------
  // Refresh
  // ---------------------------------------------------------------------------------

  function Refreshed(scheme: Scheme, content: string, g: Guidance): Result<string, string> {
    match Locate(scheme, content)
    case Err(code) => Err(code)
    case Ok(None) => Ok(if Markdown.TrimSpace(content) != "" then content + "\n" + Wrap(g) else Wrap(g))
    case Ok(Some(r)) =>
      if r.start <= r.end <= |content| then Ok(content[..r.start] + Wrap(g) + content[r.end..]) else Err("")
  }

  /** Every byte outside the region is one that was there before. */
  predicate Preserved(scheme: Scheme, content: string, next: string, r: Region)
    requires Locate(scheme, content).Ok? && r.start <= r.end <= |next|
  {
    match Locate(scheme, content).value
    case None =>
      next[r.end..] == "" && next[..r.start] == if Markdown.TrimSpace(content) != "" then content + "\n" else ""
    case Some(was) =>
      was.start <= was.end <= |content| && next[..r.start] == content[..was.start]
      && next[r.end..] == content[was.end..]
  }

  class GuidanceFile {
    var content: string
    const scheme: Scheme

    constructor (scheme: Scheme)
      ensures this.scheme == scheme && content == ""
    {
      this.scheme, content := scheme, "";
    }

    /** Refresh: the file is replaced only when its region is not already the rendered one. */
    method Refresh(g: Guidance) returns (changed: Result<bool, string>)
      modifies this
      ensures changed.Err? <==> Refreshed(scheme, old(content), g).Err?
      ensures changed.Err? ==> content == old(content)
      ensures changed.Ok? ==> Refreshed(scheme, old(content), g) == Ok(content)
      ensures changed == Ok(false) ==> content == old(content)
    {
      hide Locate, Wrap, Free;
      var located := Locate(scheme, content);
      if located.Err? { return Err(located.error); }
      var block := Wrap(g);
      var updated := block;
      match located.value {
        case Some(region) =>
          SidesAreFree(scheme, content, region);
          if content[region.start..region.end] == block {
            Whole(content, region.start, region.end);
            return Ok(false);
          }
          updated := content[..region.start] + block + content[region.end..];
        case None =>
          if Markdown.TrimSpace(content) != "" { updated := content + "\n" + block; }
      }
      content := updated;
      return Ok(true);
    }
  }

  lemma Whole(s: string, i: nat, j: nat)
    requires i <= j <= |s|
    ensures s == s[..i] + s[i..j] + s[j..]
  {
  }

  /** A refresh leaves exactly one managed region, holding the rendered bytes; it is idempotent;
      and every byte outside a region that was there is preserved. */
  lemma RefreshInstalls(scheme: Scheme, content: string, g: Guidance)
    requires Rendered(scheme, g) && Refreshed(scheme, content, g).Ok?
    ensures var next := Refreshed(scheme, content, g).value;
            && Count(next, BEGIN) == 1 && Count(next, END) == 1
            && Refreshed(scheme, next, g) == Ok(next)
            && Locate(scheme, next).Ok? && Locate(scheme, next).value.Some?
            && var r := Locate(scheme, next).value.value;
               && r.start <= r.end <= |next| && next[r.start..r.end] == Wrap(g)
               && Preserved(scheme, content, next, r)
  {
    hide Free, Count, Wrap, Rendered, Locate;
    match Locate(scheme, content).value
    case Some(was) =>
      SidesAreFree(scheme, content, was);
      InstalledBetween(scheme, g, content[..was.start], content[was.end..]);
    case None =>
      NoMarkers(scheme, content);
      NothingFree();
      Markers();
      Newline(BEGIN);
      Newline(END);
      FreeBoth(content, "\n", BEGIN);
      FreeBoth(content, "\n", END);
      var before := if Markdown.TrimSpace(content) != "" then content + "\n" else "";
      assert before + Wrap(g) + "" == before + Wrap(g);
      assert "" + Wrap(g) == Wrap(g);
      InstalledBetween(scheme, g, before, "");
  }

  lemma NothingFree()
    ensures Free("", BEGIN) && Free("", END)
  {
  }

  lemma NoMarkers(scheme: Scheme, content: string)
    requires Locate(scheme, content) == Ok(None)
    ensures Free(content, BEGIN) && Free(content, END)
  {
    hide Free, Declared;
    NoneCounted(content, BEGIN);
    NoneCounted(content, END);
  }

  lemma InstalledBetween(scheme: Scheme, g: Guidance, before: string, after: string)
    requires Rendered(scheme, g)
    requires Free(before, BEGIN) && Free(before, END) && Free(after, BEGIN) && Free(after, END)
    ensures var next, r := before + Wrap(g) + after, Region(|before|, |before| + |Wrap(g)|);
            && Locate(scheme, next) == Ok(Some(r)) && Count(next, BEGIN) == 1 && Count(next, END) == 1
            && next[..r.start] == before && next[r.start..r.end] == Wrap(g) && next[r.end..] == after
            && Refreshed(scheme, next, g) == Ok(next)
  {
    hide Free, Count, Wrap, Rendered, Locate;
    LocateInvertsWrap(scheme, g, before, after);
  }
}
