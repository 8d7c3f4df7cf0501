/** The two surfaces that state an upstream credential: the `--upstream-header` flag
    (internal/mcpserver/upstreamauth.go) and the `auth` block `pull` writes for it
    (internal/mcpserver/pull.go), read back by internal/mcpserver/upstreamguardfile.go. */
module UpstreamAuth {
  import opened Wrappers
  import opened Text
  import opened HeaderTemplate
  import KdlQuote

  // ---------------------------------------------------------------- header names

  predicate IsLower(c: char) { 'a' <= c <= 'z' }
  predicate IsUpper(c: char) { 'A' <= c <= 'Z' }

  function Upper(c: char): char { if IsLower(c) then (c as int - 32) as char else c }
  function Lower(c: char): char { if IsUpper(c) then (c as int + 32) as char else c }

  predicate IsToken(c: char) {
    IsLower(c) || IsUpper(c) || '0' <= c <= '9' || c in "!#$%&'*+-.^_`|~"
  }

  function Cased(s: string, upper: bool): string {
    if s == "" then "" else var c := if upper then Upper(s[0]) else Lower(s[0]); [c] + Cased(s[1..], c == '-')
  }

  /** `http.CanonicalHeaderKey`: a name with any character outside a token is left alone. */
  function Canonical(name: string): string {
    if forall i :: 0 <= i < |name| ==> IsToken(name[i]) then Cased(name, true) else name
  }

  predicate ValidName(name: string) {
    name != "" && ' ' !in name && '\t' !in name && ':' !in name && '\r' !in name && '\n' !in name
  }

  /** The token characters of section 5.6.2 of RFC 9110, by code. */
  lemma TokenIff(c: char)
    ensures IsToken(c) <==>
      var n := c as int;
      || 0x30 <= n <= 0x39 || 0x41 <= n <= 0x5A || 0x61 <= n <= 0x7A
      || n == 0x21 || 0x23 <= n <= 0x27 || n == 0x2A || n == 0x2B || n == 0x2D || n == 0x2E
      || 0x5E <= n <= 0x60 || n == 0x7C || n == 0x7E
  {
  }

  /** One character in upper or lower case, by code: only ASCII letters change. */
  function InCase(c: char, upper: bool): int {
    var n := c as int;
    if upper && 0x61 <= n <= 0x7A then n - 0x20 else if !upper && 0x41 <= n <= 0x5A then n + 0x20 else n
  }

  lemma {:induction false} CasedAt(s: string, upper: bool, i: nat)
    requires i < |s|
    ensures |Cased(s, upper)| == |s|
    ensures Cased(s, upper)[i] as int == InCase(s[i], if i == 0 then upper else s[i - 1] == '-')
    decreases i
  {
    var c := if upper then Upper(s[0]) else Lower(s[0]);
    CasedKeeps(s, upper);
    CasedKeeps(s[1..], c == '-');
    assert c == '-' <==> s[0] == '-';
    if i > 0 {
      CasedAt(s[1..], c == '-', i - 1);
    }
  }

  /** The canonical form of a token puts each letter that starts a word in upper case and every other in
      lower, and changes nothing else. A name that is no token is its own canonical form. */
  lemma CanonicalIs(name: string, i: nat)
    requires i < |name|
    ensures |Canonical(name)| == |name|
    ensures Canonical(name)[i] as int ==
      if forall j :: 0 <= j < |name| ==> IsToken(name[j]) then InCase(name[i], i == 0 || name[i - 1] == '-') else name[i] as int
  {
    CasedAt(name, true, i);
  }

  lemma {:induction false} CasedKeeps(s: string, upper: bool)
    ensures |Cased(s, upper)| == |s|
    ensures Cased(Cased(s, upper), upper) == Cased(s, upper)
    ensures forall i :: 0 <= i < |s| ==> Cased(s, upper)[i] == Upper(s[i]) || Cased(s, upper)[i] == Lower(s[i])
  {
    if s != "" {
      var c := if upper then Upper(s[0]) else Lower(s[0]);
      CasedKeeps(s[1..], c == '-');
      assert Cased(s, upper)[1..] == Cased(s[1..], c == '-');
      assert (if upper then Upper(c) else Lower(c)) == c;
    }
  }

  lemma CaseKeepsClass(c: char)
    ensures IsSpace(Upper(c)) == IsSpace(Lower(c)) == IsSpace(c)
    ensures IsToken(Upper(c)) == IsToken(Lower(c)) == IsToken(c)
  {
  }

  lemma {:induction false} CasedMembers(s: string, upper: bool, x: char)
    requires !IsLower(x) && !IsUpper(x)
    ensures x in Cased(s, upper) <==> x in s
  {
    if s != "" {
      var c := if upper then Upper(s[0]) else Lower(s[0]);
      CasedMembers(s[1..], c == '-', x);
      assert s == [s[0]] + s[1..];
      assert c == x <==> s[0] == x;
    }
  }

  lemma {:induction false} CasedIsStable(name: string)
    requires Trimmed(name) && forall i :: 0 <= i < |name| ==> IsToken(name[i])
    ensures Trimmed(Cased(name, true)) && Canonical(Cased(name, true)) == Cased(name, true)
  {
    CasedKeeps(name, true);
    var n := Cased(name, true);
    forall i | 0 <= i < |n| ensures IsToken(n[i]) && IsSpace(n[i]) == IsSpace(name[i]) {
      CaseKeepsClass(name[i]);
    }
  }

  /** Canonical names stay what a name must be, and are their own canonical form. */
  lemma CanonicalIsStable(name: string)
    requires Trimmed(name) && ValidName(name) && '=' !in name
    ensures var n := Canonical(name); Canonical(n) == n && Trimmed(n) && ValidName(n) && '=' !in n
  {
    if forall i :: 0 <= i < |name| ==> IsToken(name[i]) {
      CasedIsStable(name);
      CasedKeeps(name, true);
      CasedMembers(name, true, ' ');
      CasedMembers(name, true, '\t');
      CasedMembers(name, true, ':');
      CasedMembers(name, true, '\r');
      CasedMembers(name, true, '\n');
      CasedMembers(name, true, '=');
    }
  }

  // ---------------------------------------------------------------- the flag

  datatype Header = Header(name: string, segments: seq<Segment>)

  function ParseUpstreamHeader(raw: string, p: Providers): Option<Header> {
    match Cut(raw, '=')
    case None => None
    case Some((before, template)) =>
      var name, segments := TrimSpace(before), ParseTemplate(template, p);
      if !ValidName(name) || segments.None? then None else Some(Header(Canonical(name), segments.value))
  }

  // ---------------------------------------------------------------- the file

  /** An `auth header-token` block as written: quoted strings, and the provider bare. */
  datatype AuthBlock = AuthBlock(header: string, prefix: Option<string>, provider: string, address: string)

  /** The prefix text, and the source, of a template that has the shape a block can state. */
  function Shape(segments: seq<Segment>): Option<(string, Option<Segment>)> {
    if segments == [] then Some(("", None))
    else
      var s, front := segments[|segments| - 1], Shape(segments[..|segments| - 1]);
      if front.None? || front.value.1.Some? then None
      else if s.Literal? then Some((front.value.0 + s.text, None))
      else Some((front.value.0, Some(s)))
  }

  function RenderBlock(headers: seq<Header>): Option<AuthBlock> {
    if |headers| != 1 then None
    else
      match Shape(headers[0].segments)
      case None => None
      case Some((prefix, source)) =>
        var provider := if source.Some? then source.value.provider else "";
        var address := if source.Some? then source.value.address else "";
        Some(AuthBlock(KdlQuote.Quote(headers[0].name), if prefix == "" then None else Some(KdlQuote.Quote(prefix)),
                       provider, KdlQuote.Quote(address)))
  }

  /** `renderUpstreamAuth`: a source is accepted only as the last segment and the only one. */
  method RenderUpstreamAuth(headers: seq<Header>) returns (r: Option<AuthBlock>)
    requires forall h :: h in headers ==> forall s :: s in h.segments && s.Source? ==> s.provider != ""
    ensures r == RenderBlock(headers)
  {
    if |headers| != 1 { return None; }
    var h := headers[0];
    var prefix, provider, address, i := "", "", "", 0;
    while i < |h.segments|
      invariant 0 <= i <= |h.segments|
      invariant provider == "" ==> address == "" && Shape(h.segments[..i]) == Some((prefix, None))
      invariant provider != "" ==> i == |h.segments| && Shape(h.segments[..i]) == Some((prefix, Some(Source(provider, address))))
    {
      var s := h.segments[i];
      assert h in headers && s in h.segments;
      assert h.segments[..i + 1][..i] == h.segments[..i];
      if s.Literal? {
        prefix := prefix + s.text;
      } else {
        if i != |h.segments| - 1 || provider != "" {
          SourceThenMore(h.segments, i);
          return None;
        }
        provider, address := s.provider, s.address;
      }
      i := i + 1;
    }
    assert h.segments[..|h.segments|] == h.segments;
    r := Some(AuthBlock(KdlQuote.Quote(h.name), if |prefix| > 0 then Some(KdlQuote.Quote(prefix)) else None,
                        provider, KdlQuote.Quote(address)));
  }

  lemma {:induction false} SourceThenMore(segments: seq<Segment>, i: nat)
    requires i < |segments| - 1 && segments[i].Source?
    ensures Shape(segments).None?
    decreases |segments|
  {
    var n := |segments| - 1;
    if i < n - 1 {
      SourceThenMore(segments[..n], i);
    } else {
      assert segments[..n][n - 1] == segments[i];
    }
  }

  /** The parsed block: what the grammar's owner hands back. */
  datatype Auth = Auth(scheme: string, header: string, prefix: string, sources: seq<(string, string)>)

  function ReadBlock(b: AuthBlock): Option<Auth> {
    var header, address := KdlQuote.Unquote(b.header), KdlQuote.Unquote(b.address);
    var prefix := if b.prefix.None? then Some("") else KdlQuote.Unquote(b.prefix.value);
    if header.None? || address.None? || prefix.None? then None
    else Some(Auth("header-token", header.value, prefix.value, [(b.provider, address.value)]))
  }

  predicate Braced(s: string) { '{' in s || '}' in s }

  /** `upstreamAuthHeaders`. */
  function UpstreamAuthHeaders(auth: Auth, p: Providers): Option<seq<Header>> {
    if auth.scheme == "" || auth.scheme == "none" then Some([])
    else if auth.scheme != "header-token" && auth.scheme != "bearer" then None
    else if |auth.sources| != 1 then None
    else
      var (provider, address) := auth.sources[0];
      if Braced(auth.prefix + provider + address) then None
      else
        match ParseUpstreamHeader(auth.header + "=" + auth.prefix + "{" + provider + ":" + address + "}", p)
        case None => None
        case Some(h) => Some([h])
  }

  // ---------------------------------------------------------------- the round trip

  predicate Writable(s: string) { forall i :: 0 <= i < |s| ==> !KdlQuote.Unwritable(s[i]) }

  function PrefixSegments(prefix: string): seq<Segment> { if prefix == "" then [] else [Literal(prefix)] }

  lemma {:induction false} FrontIsLiteral(segments: seq<Segment>, i: nat)
    requires Shape(segments).Some? && i < |segments| - 1
    ensures segments[i].Literal?
    decreases |segments|
  {
    var n := |segments| - 1;
    if i < n - 1 {
      FrontIsLiteral(segments[..n], i);
    } else {
      assert segments[..n][n - 1] == segments[i];
    }
  }

  /** A parsed header that renders is a prefix, possibly none, and one source. */
  lemma {:induction false} RenderedShape(segments: seq<Segment>, p: Providers)
    requires NormalForm(segments, p) && Shape(segments).Some?
    ensures var (prefix, source) := Shape(segments).value;
            && source.Some? && source.value.Source? && GoodSegment(source.value, p)
            && segments == PrefixSegments(prefix) + [source.value]
            && '{' !in prefix && '}' !in prefix && NewlineFree(prefix)
  {
    var n := |segments| - 1;
    forall i | 0 <= i < n ensures segments[i].Literal? { FrontIsLiteral(segments, i); }
    assert n <= 1 && segments[n].Source?;
    if n == 1 {
      assert segments == [segments[0]] + [segments[1]];
      assert segments[..1] == [segments[0]] && segments[..1][..0] == [];
      assert Shape(segments[..1]) == Some(("" + segments[0].text, None)) && "" + segments[0].text == segments[0].text;
    } else {
      assert segments[..0] == [] && segments == [] + [segments[0]];
    }
  }

  lemma StatedTemplatePrints(prefix: string, s: Segment)
    requires s.Source?
    ensures Print(PrefixSegments(prefix) + [s]) == prefix + "{" + s.provider + ":" + s.address + "}"
  {
    var segments := PrefixSegments(prefix) + [s];
    assert [s][1..] == [] && Print([s]) == PrintSegment(s) + "";
    if prefix != "" { assert segments[1..] == [s]; } else { assert segments == [s]; }
  }

  lemma StatedTemplateIsNormal(prefix: string, s: Segment, p: Providers)
    requires '{' !in prefix && '}' !in prefix && NewlineFree(prefix) && s.Source? && GoodSegment(s, p)
    ensures NormalForm(PrefixSegments(prefix) + [s], p)
  {
    var segments := PrefixSegments(prefix) + [s];
    assert segments[|segments| - 1] == s;
  }

  lemma NamedTemplateParses(name: string, template: string, segments: seq<Segment>, p: Providers)
    requires Trimmed(name) && ValidName(name) && '=' !in name && Canonical(name) == name
    requires ParseTemplate(template, p) == Some(segments)
    ensures ParseUpstreamHeader(name + ['='] + template, p) == Some(Header(name, segments))
  {
    CutAtFirst(name, '=', template);
    TrimSpaceTrims(name);
  }

  lemma StatedTemplateParses(prefix: string, s: Segment, p: Providers)
    requires '{' !in prefix && '}' !in prefix && NewlineFree(prefix) && s.Source? && GoodSegment(s, p)
    ensures ParseTemplate(prefix + "{" + s.provider + ":" + s.address + "}", p) == Some(PrefixSegments(prefix) + [s])
  {
    StatedTemplatePrints(prefix, s);
    StatedTemplateIsNormal(prefix, s, p);
    TemplateRoundTripIff(PrefixSegments(prefix) + [s], p);
  }

  lemma LineSplits(name: string, prefix: string, provider: string, address: string)
    ensures name + "=" + prefix + "{" + provider + ":" + address + "}"
         == name + ['='] + (prefix + "{" + provider + ":" + address + "}")
  {
  }

  lemma StatedLineParses(name: string, prefix: string, s: Segment, p: Providers)
    requires Trimmed(name) && ValidName(name) && '=' !in name && Canonical(name) == name
    requires '{' !in prefix && '}' !in prefix && NewlineFree(prefix) && s.Source? && GoodSegment(s, p)
    ensures ParseUpstreamHeader(name + "=" + prefix + "{" + s.provider + ":" + s.address + "}", p)
         == Some(Header(name, PrefixSegments(prefix) + [s]))
  {
    LineSplits(name, prefix, s.provider, s.address);
    StatedTemplateParses(prefix, s, p);
    NamedTemplateParses(name, prefix + "{" + s.provider + ":" + s.address + "}", PrefixSegments(prefix) + [s], p);
  }

  /** What reading a written block back and lifting it gives. */
  function Rebuilt(b: AuthBlock, p: Providers): Option<seq<Header>> {
    match ReadBlock(b)
    case None => None
    case Some(auth) => UpstreamAuthHeaders(auth, p)
  }

  function Block(name: string, prefix: string, s: Segment): AuthBlock
    requires s.Source?
  {
    AuthBlock(KdlQuote.Quote(name), if prefix == "" then None else Some(KdlQuote.Quote(prefix)), s.provider, KdlQuote.Quote(s.address))
  }

  /** The condition a caller can check before writing: KDL can carry the strings, and no opening brace
      hides in the source. */
  predicate Statable(name: string, prefix: string, s: Segment)
    requires s.Source?
  {
    Writable(name) && Writable(prefix) && Writable(s.address) && '{' !in s.provider && '{' !in s.address
  }

  lemma BlockReadsBackIff(name: string, prefix: string, s: Segment)
    requires s.Source?
    ensures ReadBlock(Block(name, prefix, s))
         == if Writable(name) && Writable(prefix) && Writable(s.address)
            then Some(Auth("header-token", name, prefix, [(s.provider, s.address)])) else None
  {
    KdlQuote.QuoteRoundTripIff(name);
    KdlQuote.QuoteRoundTripIff(prefix);
    KdlQuote.QuoteRoundTripIff(s.address);
  }

  lemma StatedAuthIff(name: string, prefix: string, s: Segment, p: Providers)
    requires Trimmed(name) && ValidName(name) && '=' !in name && Canonical(name) == name
    requires '{' !in prefix && '}' !in prefix && NewlineFree(prefix) && s.Source? && GoodSegment(s, p)
    ensures UpstreamAuthHeaders(Auth("header-token", name, prefix, [(s.provider, s.address)]), p)
         == if '{' in s.provider || '{' in s.address then None else Some([Header(name, PrefixSegments(prefix) + [s])])
  {
    assert |"header-token"| == 12 && |"none"| == 4;
    assert Braced(prefix + s.provider + s.address) <==> '{' in s.provider || '{' in s.address;
    StatedLineParses(name, prefix, s, p);
  }

  /** A header given on the command line, written to a guardfile and read back, is the same header exactly
      when it is statable. Otherwise the file is refused; it never states a different header. */
  lemma HeaderSurvivesTheFileIff(raw: string, p: Providers)
    requires ParseUpstreamHeader(raw, p).Some?
    requires RenderBlock([ParseUpstreamHeader(raw, p).value]).Some?
    ensures var h := ParseUpstreamHeader(raw, p).value;
            var (prefix, source) := Shape(h.segments).value;
            && source.Some? && source.value.Source?
            && Rebuilt(RenderBlock([h]).value, p) == if Statable(h.name, prefix, source.value) then Some([h]) else None
  {
    var h := ParseUpstreamHeader(raw, p).value;
    ParsedNameIsStable(raw, p);
    ParsedTemplatesAreNormal(Cut(raw, '=').value.1, p);
    RenderedShape(h.segments, p);
    var (prefix, source) := Shape(h.segments).value;
    assert RenderBlock([h]) == Some(Block(h.name, prefix, source.value));
    BlockReadsBackIff(h.name, prefix, source.value);
    StatedAuthIff(h.name, prefix, source.value, p);
  }

  lemma ParsedNameIsStable(raw: string, p: Providers)
    requires ParseUpstreamHeader(raw, p).Some?
    ensures var n := ParseUpstreamHeader(raw, p).value.name;
            Canonical(n) == n && Trimmed(n) && ValidName(n) && '=' !in n
  {
    CutSplits(raw, '=');
    var before := Cut(raw, '=').value.0;
    TrimSpaceTrims(before);
    CanonicalIsStable(TrimSpace(before));
  }

  // ---------------------------------------------------------------- each half by itself

  /** A flag states a header exactly when it has an equals sign, a valid name before the first one, and a
      template after it. */
  lemma HeaderParsesIff(before: string, template: string, p: Providers, h: Header)
    requires '=' !in before
    ensures ParseUpstreamHeader(before + "=" + template, p) == Some(h) <==>
      && TrimSpace(before) != "" && (forall c :: c in TrimSpace(before) ==> c !in " \t:\r\n")
      && h.name == Canonical(TrimSpace(before)) && ParseTemplate(template, p) == Some(h.segments)
  {
    assert before + "=" + template == before + ['='] + template;
    CutAtFirst(before, '=', template);
  }

  lemma NoEqualsNoHeader(raw: string, p: Providers)
    requires '=' !in raw
    ensures ParseUpstreamHeader(raw, p) == None
  {
    CutSplits(raw, '=');
  }

  /** The literal text of some segments, end to end. */
  function Texts(segments: seq<Segment>): string
    requires forall i :: 0 <= i < |segments| ==> segments[i].Literal?
  {
    if segments == [] then "" else segments[0].text + Texts(segments[1..])
  }

  lemma {:induction false} TextsOfMore(front: seq<Segment>, last: Segment)
    requires last.Literal? && forall i :: 0 <= i < |front| ==> front[i].Literal?
    ensures Texts(front + [last]) == Texts(front) + last.text
  {
    if front == [] {
      assert [] + [last] == [last] && [last][1..] == [] && last.text + "" == last.text && "" + last.text == last.text;
    } else {
      assert (front + [last])[1..] == front[1..] + [last];
      TextsOfMore(front[1..], last);
    }
  }

  lemma {:induction false} LiteralsHaveShape(segments: seq<Segment>)
    requires forall i :: 0 <= i < |segments| ==> segments[i].Literal?
    ensures Shape(segments) == Some((Texts(segments), None))
    decreases |segments|
  {
    if segments != [] {
      var front, last := segments[..|segments| - 1], segments[|segments| - 1];
      LiteralsHaveShape(front);
      assert segments == front + [last];
      TextsOfMore(front, last);
    }
  }

  ghost predicate LiteralBefore(segments: seq<Segment>, n: nat)
    requires n <= |segments|
  {
    forall i :: 0 <= i < n ==> segments[i].Literal?
  }

  lemma {:induction false} SourceLast(segments: seq<Segment>)
    requires segments != [] && segments[|segments| - 1].Source? && LiteralBefore(segments, |segments| - 1)
    ensures var n := |segments| - 1; Shape(segments) == Some((Texts(segments[..n]), Some(segments[n])))
  {
    LiteralsHaveShape(segments[..|segments| - 1]);
  }

  /** Segments have the shape of a block exactly when none but the last is a source. */
  lemma {:induction false} ShapeIff(segments: seq<Segment>)
    requires segments != []
    ensures var n := |segments| - 1;
            && (Shape(segments).Some? <==> LiteralBefore(segments, n))
            && (LiteralBefore(segments, n) ==>
                 Shape(segments) == Some(if segments[n].Literal? then (Texts(segments), None) else (Texts(segments[..n]), Some(segments[n]))))
  {
    var n := |segments| - 1;
    if !LiteralBefore(segments, n) {
      var i :| 0 <= i < n && !segments[i].Literal?;
      SourceThenMore(segments, i);
    } else if segments[n].Literal? {
      LiteralsHaveShape(segments);
    } else {
      SourceLast(segments);
    }
  }

  /** Headers can be stated as a block exactly when there is one, whose sources are its last segment at
      most; the block then quotes its name, the text before the source, and the source's address. */
  lemma RendersIff(h: Header)
    ensures RenderBlock([h]).Some? <==> forall i :: 0 <= i < |h.segments| - 1 ==> h.segments[i].Literal?
    ensures h.segments != [] && RenderBlock([h]).Some? ==>
      var n := |h.segments| - 1;
      var prefix := if h.segments[n].Literal? then Texts(h.segments) else Texts(h.segments[..n]);
      var (provider, address) := if h.segments[n].Literal? then ("", "") else (h.segments[n].provider, h.segments[n].address);
      RenderBlock([h]) == Some(AuthBlock(KdlQuote.Quote(h.name), if prefix == "" then None else Some(KdlQuote.Quote(prefix)),
                                         provider, KdlQuote.Quote(address)))
  {
    if h.segments != [] {
      ShapeIff(h.segments);
    }
  }

  lemma OneHeaderOnly(headers: seq<Header>)
    requires |headers| != 1
    ensures RenderBlock(headers) == None
  {
  }

  /** An `auth` block states no header when its scheme is empty or `none`, and one when it is a header or
      bearer token with a single source and no brace in what it is built from; anything else is refused. */
  lemma AuthMeans(auth: Auth, p: Providers)
    ensures auth.scheme == "" || auth.scheme == "none" ==> UpstreamAuthHeaders(auth, p) == Some([])
    ensures auth.scheme != "" && auth.scheme != "none" && (UpstreamAuthHeaders(auth, p).Some? || auth.scheme in ["header-token", "bearer"]) ==>
      && (auth.scheme == "header-token" || auth.scheme == "bearer")
      && UpstreamAuthHeaders(auth, p) ==
           if |auth.sources| != 1 || Braced(auth.prefix) || Braced(auth.sources[0].0) || Braced(auth.sources[0].1) then None
           else
             var h := ParseUpstreamHeader(auth.header + "=" + auth.prefix + "{" + auth.sources[0].0 + ":" + auth.sources[0].1 + "}", p);
             if h.Some? then Some([h.value]) else None
  {
    assert |"header-token"| == 12 && |"none"| == 4 && |"bearer"| == 6;
    if |auth.sources| == 1 {
      assert Braced(auth.prefix + auth.sources[0].0 + auth.sources[0].1)
             <==> Braced(auth.prefix) || Braced(auth.sources[0].0) || Braced(auth.sources[0].1);
    }
  }

  // ---------------------------------------------------------------- the value on the wire

  /** A header of the usual shape, `<prefix>{provider:address}`, sends the prefix followed by what the
      source reads. */
  lemma HeaderSendsPrefixAndSecret(name: string, prefix: string, s: Segment, p: Providers, read: (string, string) -> Option<string>)
    requires Trimmed(name) && ValidName(name) && '=' !in name && Canonical(name) == name
    requires '{' !in prefix && '}' !in prefix && NewlineFree(prefix) && s.Source? && GoodSegment(s, p)
    ensures var h := ParseUpstreamHeader(name + "=" + prefix + "{" + s.provider + ":" + s.address + "}", p);
            var secret := read(s.provider, s.address);
            && h.Some? && h.value.name == name
            && Resolve(h.value.segments, read)
               == if secret.Some? && NewlineFree(secret.value) then Some(prefix + secret.value) else None
  {
    StatedLineParses(name, prefix, s, p);
    var segments := PrefixSegments(prefix) + [s];
    assert segments[..|segments| - 1] == PrefixSegments(prefix) && segments[|segments| - 1] == s;
    PrefixResolves(prefix, read);
  }

  lemma PrefixResolves(prefix: string, read: (string, string) -> Option<string>)
    ensures Resolve(PrefixSegments(prefix), read) == Some(prefix)
  {
    if prefix != "" {
      assert [Literal(prefix)][..0] == [] && Resolve([], read) == Some("") && "" + prefix == prefix;
    }
  }
}
