/** internal/mcpserver/upstreamauth.go: the `<name>=<template>` grammar of an upstream header. */
module HeaderTemplate {
  import opened Wrappers
  import opened Text

  datatype Segment = Literal(text: string) | Source(provider: string, address: string)

  /** The value registry: provider names, and the declared clients a minted address may name. */
  datatype Providers = Providers(known: set<string>, clients: set<string>) {
    predicate Resolvable(provider: string, address: string) {
      provider in known && (provider == "oauth2" ==> address in clients)
    }
  }

  predicate NewlineFree(s: string) { '\r' !in s && '\n' !in s }

  function ParseSource(body: string, p: Providers): Option<Segment> {
    match Cut(body, ':')
    case None => None
    case Some((before, after)) =>
      var provider, address := TrimSpace(before), TrimSpace(after);
      if !p.Resolvable(provider, address) || address == "" then None else Some(Source(provider, address))
  }

  /** A source reads exactly as what stands on either side of its first colon, trimmed: a known provider,
      and an address, which for `oauth2` names a declared client. */
  lemma SourceReadsIff(before: string, after: string, p: Providers, s: Segment)
    requires ':' !in before
    ensures ParseSource(before + ":" + after, p) == Some(s) <==>
      && s == Source(TrimSpace(before), TrimSpace(after))
      && s.provider in p.known && s.address != "" && (s.provider == "oauth2" ==> s.address in p.clients)
  {
    assert before + ":" + after == before + [':'] + after;
    CutAtFirst(before, ':', after);
  }

  lemma NoColonNoSource(body: string, p: Providers)
    requires ':' !in body
    ensures ParseSource(body, p) == None
  {
    CutSplits(body, ':');
  }

  function Flush(literal: string): seq<Segment> { if literal == "" then [] else [Literal(literal)] }

  /** The scan from one position on, with the literal text pending there. */
  function ParseFrom(t: string, literal: string, p: Providers): Option<seq<Segment>>
    decreases |t|
  {
    if t == "" then Some(Flush(literal))
    else if t[0] == '}' then None
    else if t[0] == '{' then
      match Cut(t[1..], '}')
      case None => None
      case Some((body, rest)) =>
        CutSplits(t[1..], '}');
        var source, others := ParseSource(body, p), ParseFrom(rest, "", p);
        if source.None? || others.None? then None else Some(Flush(literal) + [source.value] + others.value)
    else ParseFrom(t[1..], literal + [t[0]], p)
  }

  predicate HasSource(segments: seq<Segment>) { exists i :: 0 <= i < |segments| && segments[i].Source? }

  function ParseTemplate(t: string, p: Providers): Option<seq<Segment>> {
    if !NewlineFree(t) then None
    else
      match ParseFrom(t, "", p)
      case None => None
      case Some(segments) => if HasSource(segments) then Some(segments) else None
  }

  /** The scan as the source runs it: an index, a literal buffer, and a growing list. */
  method ParseHeaderTemplate(t: string, p: Providers) returns (r: Option<seq<Segment>>)
    ensures r == ParseTemplate(t, p)
  {
    if '\r' in t || '\n' in t { return None; }
    var segments: seq<Segment>, literal: string, sources, i := [], "", 0, 0;
    PrependNothing(ParseFrom(t, "", p));
    assert t[0..] == t;
    while i < |t|
      invariant 0 <= i <= |t|
      invariant (sources > 0) == HasSource(segments)
      invariant ParseFrom(t, "", p) == Prepend(segments, ParseFrom(t[i..], literal, p))
    {
      ScanStep(t, i, literal, p);
      if t[i] == '}' { return None; }
      if t[i] == '{' {
        var cut := Cut(t[i + 1..], '}');
        if cut.None? { return None; }
        var (body, rest) := cut.value;
        var source := ParseSource(body, p);
        if source.None? { return None; }
        i := i + 1 + |body| + 1;
        SourceScanned(segments, literal, source.value, ParseFrom(t[i..], "", p));
        segments := segments + Flush(literal) + [source.value];
        literal := "";
        sources := sources + 1;
      } else {
        literal := literal + [t[i]];
        i := i + 1;
      }
    }
    LiteralAddsNoSource(segments, literal);
    segments := segments + Flush(literal);
    r := if sources == 0 then None else Some(segments);
  }

  /** What the scan makes of the character it stands on. */
  lemma {:induction false} ScanStep(t: string, i: nat, literal: string, p: Providers)
    requires i < |t|
    ensures var here, cut := ParseFrom(t[i..], literal, p), Cut(t[i + 1..], '}');
            if t[i] == '}' || (t[i] == '{' && (cut.None? || ParseSource(cut.value.0, p).None?)) then here == None
            else if t[i] == '{' then
              var next := i + 1 + |cut.value.0| + 1;
              && next <= |t|
              && here == Prepend(Flush(literal) + [ParseSource(cut.value.0, p).value], ParseFrom(t[next..], "", p))
            else here == ParseFrom(t[i + 1..], literal + [t[i]], p)
  {
    assert t[i..][1..] == t[i + 1..];
    CutSplits(t[i + 1..], '}');
    if t[i] == '{' && Cut(t[i + 1..], '}').Some? {
      var (body, rest) := Cut(t[i + 1..], '}').value;
      assert t[i + 1 + |body| + 1..] == rest;
    }
  }

  lemma SourceScanned(segments: seq<Segment>, literal: string, source: Segment, rest: Option<seq<Segment>>)
    requires source.Source?
    ensures HasSource(segments + Flush(literal) + [source])
    ensures Prepend(segments, Prepend(Flush(literal) + [source], rest)) == Prepend(segments + Flush(literal) + [source], rest)
  {
    var all := segments + Flush(literal) + [source];
    assert all[|all| - 1].Source?;
    assert segments + (Flush(literal) + [source]) == all;
    PrependTwice(segments, Flush(literal) + [source], rest);
  }

  lemma LiteralAddsNoSource(segments: seq<Segment>, literal: string)
    ensures HasSource(segments + Flush(literal)) == HasSource(segments)
  {
    if k :| 0 <= k < |segments| && segments[k].Source? {
      assert (segments + Flush(literal))[k].Source?;
    }
  }

  function Prepend(front: seq<Segment>, rest: Option<seq<Segment>>): Option<seq<Segment>> {
    if rest.None? then None else Some(front + rest.value)
  }

  lemma PrependNothing(rest: Option<seq<Segment>>)
    ensures Prepend([], rest) == rest
  {
    if rest.Some? { assert [] + rest.value == rest.value; }
  }

  lemma PrependTwice(a: seq<Segment>, b: seq<Segment>, rest: Option<seq<Segment>>)
    ensures Prepend(a, Prepend(b, rest)) == Prepend(a + b, rest)
  {
    if rest.Some? { assert a + (b + rest.value) == a + b + rest.value; }
  }

  // ---------------------------------------------------------------- printing, and the normal form

  function PrintSegment(s: Segment): string {
    match s
    case Literal(text) => text
    case Source(provider, address) => "{" + provider + ":" + address + "}"
  }

  function Print(segments: seq<Segment>): string {
    if segments == [] then "" else PrintSegment(segments[0]) + Print(segments[1..])
  }

  predicate GoodSegment(s: Segment, p: Providers) {
    match s
    case Literal(text) => text != "" && '{' !in text && '}' !in text && NewlineFree(text)
    case Source(provider, address) =>
      && p.Resolvable(provider, address) && address != ""
      && Trimmed(provider) && Trimmed(address)
      && ':' !in provider && '}' !in provider && '}' !in address
      && NewlineFree(provider) && NewlineFree(address)
  }

  predicate GoodSegments(segments: seq<Segment>, p: Providers) {
    && (forall i :: 0 <= i < |segments| ==> GoodSegment(segments[i], p))
    && (forall i :: 0 < i < |segments| ==> segments[i - 1].Source? || segments[i].Source?)
  }

  predicate NormalForm(segments: seq<Segment>, p: Providers) { GoodSegments(segments, p) && HasSource(segments) }

  lemma {:induction false} LiteralIsBuffered(x: string, rest: string, literal: string, p: Providers)
    requires '{' !in x && '}' !in x
    ensures ParseFrom(x + rest, literal, p) == ParseFrom(rest, literal + x, p)
  {
    if x == "" {
      assert x + rest == rest && literal + x == literal;
    } else {
      assert (x + rest)[1..] == x[1..] + rest;
      assert (x + rest)[0] == x[0] && x[0] in x;
      LiteralIsBuffered(x[1..], rest, literal + [x[0]], p);
      assert literal + [x[0]] + x[1..] == literal + x;
    }
  }

  lemma BodyIsRead(s: Segment, p: Providers)
    requires s.Source? && GoodSegment(s, p)
    ensures ParseSource(s.provider + ":" + s.address, p) == Some(s)
  {
    assert s.provider + ":" + s.address == s.provider + [':'] + s.address;
    CutAtFirst(s.provider, ':', s.address);
    TrimSpaceTrims(s.provider);
    TrimSpaceTrims(s.address);
  }

  lemma SpanIsCut(s: Segment, rest: string)
    requires s.Source? && '}' !in s.provider && '}' !in s.address
    ensures var t := PrintSegment(s) + rest;
            t != "" && t[0] == '{' && Cut(t[1..], '}') == Some((s.provider + ":" + s.address, rest))
  {
    var body := s.provider + ":" + s.address;
    assert (PrintSegment(s) + rest)[1..] == body + ['}'] + rest;
    CutAtFirst(body, '}', rest);
  }

  lemma {:induction false} SourceIsRead(s: Segment, rest: string, literal: string, p: Providers)
    requires s.Source? && GoodSegment(s, p)
    ensures ParseFrom(PrintSegment(s) + rest, literal, p) == Prepend(Flush(literal) + [s], ParseFrom(rest, "", p))
  {
    SpanIsCut(s, rest);
    BodyIsRead(s, p);
  }

  /** Scanning a printed list gives the list back, after whatever literal was pending. */
  lemma {:induction false} PrintedIsParsed(segments: seq<Segment>, literal: string, p: Providers)
    requires GoodSegments(segments, p)
    requires literal == "" || segments == [] || segments[0].Source?
    ensures ParseFrom(Print(segments), literal, p) == Some(Flush(literal) + segments)
    decreases |segments|
  {
    if segments == [] {
      assert Flush(literal) + segments == Flush(literal);
    } else {
      var s, rest := segments[0], segments[1..];
      RestIsGood(segments, p);
      assert segments == [s] + rest;
      if s.Literal? {
        PrintedIsParsed(rest, s.text, p);
        LiteralThenRest(s, rest, p);
      } else {
        PrintedIsParsed(rest, "", p);
        SourceThenRest(s, rest, literal, p);
      }
    }
  }

  lemma {:induction false} LiteralThenRest(s: Segment, rest: seq<Segment>, p: Providers)
    requires s.Literal? && GoodSegment(s, p)
    requires ParseFrom(Print(rest), s.text, p) == Some(Flush(s.text) + rest)
    ensures ParseFrom(Print([s] + rest), "", p) == Some(Flush("") + ([s] + rest))
  {
    assert ([s] + rest)[1..] == rest && "" + s.text == s.text;
    LiteralIsBuffered(s.text, Print(rest), "", p);
    assert Flush("") + ([s] + rest) == Flush(s.text) + rest;
  }

  lemma {:induction false} SourceThenRest(s: Segment, rest: seq<Segment>, literal: string, p: Providers)
    requires s.Source? && GoodSegment(s, p)
    requires ParseFrom(Print(rest), "", p) == Some(Flush("") + rest)
    ensures ParseFrom(Print([s] + rest), literal, p) == Some(Flush(literal) + ([s] + rest))
  {
    assert ([s] + rest)[1..] == rest && Print([s] + rest) == PrintSegment(s) + Print(rest);
    SourceIsRead(s, Print(rest), literal, p);
    PrependedRest(Flush(literal), s, rest);
  }

  lemma PrependedRest(front: seq<Segment>, s: Segment, rest: seq<Segment>)
    ensures Prepend(front + [s], Some(Flush("") + rest)) == Some(front + ([s] + rest))
  {
    assert Flush("") + rest == rest && (front + [s]) + rest == front + ([s] + rest);
  }

  lemma RestIsGood(segments: seq<Segment>, p: Providers)
    requires GoodSegments(segments, p) && segments != []
    ensures GoodSegments(segments[1..], p)
    ensures segments[0].Literal? && segments[1..] != [] ==> segments[1..][0].Source?
  {
    var rest := segments[1..];
    assert forall i :: 0 <= i < |rest| ==> rest[i] == segments[i + 1];
    forall i | 0 < i < |rest| ensures rest[i - 1].Source? || rest[i].Source? {
      assert segments[i].Source? || segments[i + 1].Source?;
    }
    assert |segments| > 1 ==> segments[0].Source? || segments[1].Source?;
  }

  lemma {:induction false} PrintedHasNoNewline(segments: seq<Segment>, p: Providers)
    requires forall i :: 0 <= i < |segments| ==> GoodSegment(segments[i], p)
    ensures NewlineFree(Print(segments))
  {
    if segments != [] {
      PrintedHasNoNewline(segments[1..], p);
    }
  }

  lemma SourceIsGood(body: string, p: Providers)
    requires ParseSource(body, p).Some? && '}' !in body && NewlineFree(body)
    ensures GoodSegment(ParseSource(body, p).value, p)
  {
    CutSplits(body, ':');
    var (before, after) := Cut(body, ':').value;
    TrimSpaceTrims(before);
    TrimSpaceTrims(after);
  }

  /** What the scan yields is in normal form: no empty literal, and never two in a row. */
  lemma {:induction false} ParsedIsGood(t: string, literal: string, p: Providers)
    requires ParseFrom(t, literal, p).Some? && NewlineFree(t)
    requires '{' !in literal && '}' !in literal && NewlineFree(literal)
    ensures GoodSegments(ParseFrom(t, literal, p).value, p)
    decreases |t|
  {
    if t != "" && t[0] == '{' {
      CutSplits(t[1..], '}');
      var (body, rest) := Cut(t[1..], '}').value;
      forall c | c in body || c in rest ensures c in t { CutMembers(t[1..], '}', c); }
      SourceIsGood(body, p);
      ParsedIsGood(rest, "", p);
      SourceJoins(Flush(literal), ParseSource(body, p).value, ParseFrom(rest, "", p).value, p);
    } else if t != "" {
      ParsedIsGood(t[1..], literal + [t[0]], p);
    }
  }

  lemma SourceJoins(front: seq<Segment>, source: Segment, rest: seq<Segment>, p: Providers)
    requires |front| <= 1 && GoodSegments(front, p) && source.Source? && GoodSegment(source, p) && GoodSegments(rest, p)
    ensures GoodSegments(front + [source] + rest, p)
  {
    var all := front + [source] + rest;
    forall i | 0 <= i < |all| ensures GoodSegment(all[i], p) && (i > 0 ==> all[i - 1].Source? || all[i].Source?) {
      if i > |front| { assert all[i] == rest[i - |front| - 1]; }
      if i > |front| + 1 { assert all[i - 1] == rest[i - |front| - 2]; }
    }
  }

  // ---------------------------------------------------------------- the grammar

  /** `t` spells the segments: literal text without braces, never two literals in a row, and each source in
      braces of its own, up to the first closing one. */
  ghost predicate Spelt(t: string, segments: seq<Segment>, p: Providers)
    decreases |segments|
  {
    if segments == [] then t == ""
    else if segments[0].Literal? then
      var text := segments[0].text;
      && text != "" && '{' !in text && '}' !in text && text <= t
      && (|segments| > 1 ==> segments[1].Source?)
      && Spelt(t[|text|..], segments[1..], p)
    else exists n: nat :: SourceSpelt(t, n, segments[0], p) && Spelt(t[n + 2..], segments[1..], p)
  }

  /** `t` begins with `{`, `n` characters that read as the source and hold no `}`, and `}`. */
  ghost predicate SourceSpelt(t: string, n: nat, s: Segment, p: Providers) {
    n + 2 <= |t| && t[0] == '{' && t[n + 1] == '}' && '}' !in t[1..n + 1] && ParseSource(t[1..n + 1], p) == Some(s)
  }

  lemma SourceSpan(t: string, n: nat)
    requires n + 2 <= |t| && t[0] == '{' && t[n + 1] == '}' && '}' !in t[1..n + 1]
    ensures Cut(t[1..], '}') == Some((t[1..n + 1], t[n + 2..]))
  {
    CutAtFirst(t[1..n + 1], '}', t[n + 2..]);
    assert t[1..] == t[1..n + 1] + ['}'] + t[n + 2..];
  }

  lemma SpanOfCut(t: string) returns (n: nat)
    requires t != "" && t[0] == '{' && Cut(t[1..], '}').Some?
    ensures n + 2 <= |t| && t[n + 1] == '}' && '}' !in t[1..n + 1]
    ensures Cut(t[1..], '}') == Some((t[1..n + 1], t[n + 2..]))
  {
    CutSplits(t[1..], '}');
    var (body, rest) := Cut(t[1..], '}').value;
    n := |body|;
    assert t[1..] == body + ['}'] + rest;
    assert t[1..n + 1] == t[1..][..n] == body && t[n + 2..] == t[1..][n + 1..] == rest && t[n + 1] == t[1..][n];
  }

  /** The text up to the first brace. */
  function Plain(t: string): string {
    if t == "" || t[0] == '{' || t[0] == '}' then "" else [t[0]] + Plain(t[1..])
  }

  lemma {:induction false} PlainIsPrefix(t: string)
    ensures Plain(t) <= t && '{' !in Plain(t) && '}' !in Plain(t)
    ensures Plain(t) == t || t[|Plain(t)|] == '{' || t[|Plain(t)|] == '}'
  {
    if t != "" && t[0] != '{' && t[0] != '}' {
      PlainIsPrefix(t[1..]);
      assert t == [t[0]] + t[1..];
    }
  }

  /** A literal that opens a spelling takes all the text up to the first brace. */
  lemma {:induction false} LiteralIsPlain(t: string, segments: seq<Segment>, p: Providers)
    requires segments != [] && segments[0].Literal? && Spelt(t, segments, p)
    ensures segments[0].text == Plain(t)
  {
    var text := segments[0].text;
    assert t[|text|..] == "" || t[|text|..][0] == '{';
    PlainIsLongest(t, text);
  }

  lemma {:induction false} PlainIsLongest(t: string, x: string)
    requires x <= t && '{' !in x && '}' !in x && (|x| < |t| ==> t[|x|] == '{' || t[|x|] == '}')
    ensures x == Plain(t)
  {
    if x != "" {
      assert x[0] in x && x == [x[0]] + x[1..] && t == [t[0]] + t[1..];
      assert forall c :: c in x[1..] ==> c in x;
      PlainIsLongest(t[1..], x[1..]);
    }
  }

  lemma {:induction false} SpeltFromSource(t: string, n: nat, segments: seq<Segment>, p: Providers)
    requires segments != [] && segments[0].Source? && Spelt(t, segments, p)
    requires n + 2 <= |t| && Cut(t[1..], '}') == Some((t[1..n + 1], t[n + 2..]))
    ensures ParseSource(t[1..n + 1], p) == Some(segments[0]) && Spelt(t[n + 2..], segments[1..], p)
  {
    var m: nat :| SourceSpelt(t, m, segments[0], p) && Spelt(t[m + 2..], segments[1..], p);
    SourceSpan(t, m);
  }

  lemma {:induction false} NoSpanNoSource(t: string, segments: seq<Segment>, p: Providers)
    requires t != "" && Cut(t[1..], '}').None? && segments != [] && segments[0].Source?
    ensures !Spelt(t, segments, p)
  {
    if n: nat :| SourceSpelt(t, n, segments[0], p) && Spelt(t[n + 2..], segments[1..], p) {
      SourceSpan(t, n);
    }
  }

  lemma {:induction false} ScanOfSource(t: string, n: nat, literal: string, segments: seq<Segment>, p: Providers)
    requires t != "" && t[0] == '{' && segments != [] && segments[0].Source?
    requires n + 2 <= |t| && Cut(t[1..], '}') == Some((t[1..n + 1], t[n + 2..]))
    ensures ParseFrom(t, literal, p) == Some(Flush(literal) + segments)
            <==> ParseSource(t[1..n + 1], p) == Some(segments[0]) && ParseFrom(t[n + 2..], "", p) == Some(segments[1..])
  {
    var source, others := ParseSource(t[1..n + 1], p), ParseFrom(t[n + 2..], "", p);
    if source.Some? && others.Some? {
      SameTail(Flush(literal), source.value, others.value, segments);
    }
  }

  /** At a source, scanning and spelling take the same step. */
  lemma {:induction false} SourceStep(t: string, literal: string, segments: seq<Segment>, p: Providers)
    requires t != "" && t[0] == '{' && segments != [] && segments[0].Source?
    requires forall rest: string, more: seq<Segment> :: |rest| < |t| ==>
      (ParseFrom(rest, "", p) == Some(more) <==> Spelt(rest, more, p))
    ensures ParseFrom(t, literal, p) == Some(Flush(literal) + segments) <==> Spelt(t, segments, p)
  {
    if Cut(t[1..], '}').None? {
      NoSpanNoSource(t, segments, p);
    } else {
      var n := SpanOfCut(t);
      ScanOfSource(t, n, literal, segments, p);
      assert ParseFrom(t[n + 2..], "", p) == Some(segments[1..]) <==> Spelt(t[n + 2..], segments[1..], p);
      if Spelt(t, segments, p) {
        SpeltFromSource(t, n, segments, p);
      } else {
        assert !(SourceSpelt(t, n, segments[0], p) && Spelt(t[n + 2..], segments[1..], p));
      }
    }
  }

  lemma SameTail(front: seq<Segment>, source: Segment, others: seq<Segment>, segments: seq<Segment>)
    requires segments != []
    ensures front + [source] + others == front + segments <==> segments[0] == source && segments[1..] == others
  {
    assert segments == [segments[0]] + segments[1..];
    if front + [source] + others == front + segments {
      assert (front + [source] + others)[|front|..] == [source] + others && (front + segments)[|front|..] == segments;
    }
    assert front + [source] + others == front + ([source] + others);
  }

  /** Past its first brace a text gives the pending literal, then a source. */
  lemma {:induction false} SourceComesNext(t: string, literal: string, p: Providers)
    requires t != "" && t[0] == '{' && literal != "" && ParseFrom(t, literal, p).Some?
    ensures var segments := ParseFrom(t, literal, p).value;
            |segments| > 1 && segments[0] == Literal(literal) && segments[1].Source?
  {
  }

  lemma {:induction false} BraceGivesSource(t: string, p: Providers)
    requires t != "" && t[0] == '{'
    ensures ParseFrom(t, "", p).Some? ==> ParseFrom(t, "", p).value != [] && ParseFrom(t, "", p).value[0].Source?
  {
  }

  lemma {:induction false} NothingSpellsNothing(segments: seq<Segment>, p: Providers)
    ensures Spelt("", segments, p) <==> segments == []
  {
  }

  lemma {:induction false} PlainStep(t: string, segments: seq<Segment>, p: Providers)
    requires t != "" && t[0] != '{' && t[0] != '}'
    requires forall rest: string, more: seq<Segment> :: |rest| < |t| ==>
      (ParseFrom(rest, "", p) == Some(more) <==> Spelt(rest, more, p))
    ensures ParseFrom(t, "", p) == Some(segments) <==> Spelt(t, segments, p)
  {
    var x := Plain(t);
    PlainIsPrefix(t);
    var rest := t[|x|..];
    assert t == x + rest && "" + x == x;
    LiteralIsBuffered(x, rest, "", p);
    if segments != [] && segments[0].Literal? && Spelt(t, segments, p) { LiteralIsPlain(t, segments, p); }
    if rest == "" {
      assert t == x && ParseFrom(t, "", p) == Some([Literal(x)]);
      if segments != [] {
        assert segments == [segments[0]] + segments[1..];
        NothingSpellsNothing(segments[1..], p);
        assert segments == [Literal(x)] ==> Spelt(t, segments, p);
      }
    } else if rest[0] == '{' {
      PlainThenSource(t, x, rest, segments, p);
    }
  }

  lemma {:induction false} PlainThenSource(t: string, x: string, rest: string, segments: seq<Segment>, p: Providers)
    requires x != "" && t == x + rest && x == Plain(t) && '{' !in x && '}' !in x && rest != "" && rest[0] == '{'
    requires ParseFrom(t, "", p) == ParseFrom(rest, x, p)
    requires forall rest: string, more: seq<Segment> :: |rest| < |t| ==>
      (ParseFrom(rest, "", p) == Some(more) <==> Spelt(rest, more, p))
    ensures ParseFrom(t, "", p) == Some(segments) <==> Spelt(t, segments, p)
  {
    assert t[|x|..] == rest;
    if |segments| > 1 && segments[0] == Literal(x) && segments[1].Source? {
      var tail := segments[1..];
      assert segments == Flush(x) + tail;
      SourceStep(rest, x, tail, p);
      LiteralThenTail(t, x, segments, p);
    } else {
      if ParseFrom(rest, x, p).Some? { SourceComesNext(rest, x, p); }
      if Spelt(t, segments, p) { PlainOpens(t, x, rest, segments, p); }
    }
  }

  lemma {:induction false} LiteralThenTail(t: string, x: string, segments: seq<Segment>, p: Providers)
    requires x != "" && x <= t && '{' !in x && '}' !in x && |segments| > 1 && segments[0] == Literal(x) && segments[1].Source?
    ensures Spelt(t, segments, p) <==> Spelt(t[|x|..], segments[1..], p)
  {
  }

  /** A spelling that opens with plain text and goes on to a brace is a literal and a source. */
  lemma {:induction false} PlainOpens(t: string, x: string, rest: string, segments: seq<Segment>, p: Providers)
    requires x != "" && t == x + rest && x == Plain(t) && '{' !in x && rest != "" && rest[0] == '{' && Spelt(t, segments, p)
    ensures |segments| > 1 && segments[0] == Literal(x) && segments[1].Source?
  {
    assert t[0] == x[0] && x[0] in x;
    assert segments != [] && segments[0].Literal?;
    LiteralIsPlain(t, segments, p);
    assert t[|x|..] == rest && Spelt(rest, segments[1..], p);
  }

  /** Scanning a text gives exactly the segments it spells. */
  lemma {:induction false} ParseFromIff(t: string, segments: seq<Segment>, p: Providers)
    ensures ParseFrom(t, "", p) == Some(segments) <==> Spelt(t, segments, p)
    decreases |t|
  {
    forall rest: string, more: seq<Segment> | |rest| < |t|
      ensures ParseFrom(rest, "", p) == Some(more) <==> Spelt(rest, more, p)
    {
      ParseFromIff(rest, more, p);
    }
    if t == "" {
      NothingSpellsNothing(segments, p);
    } else if t[0] == '{' {
      assert Flush("") + segments == segments;
      if segments != [] && segments[0].Source? {
        SourceStep(t, "", segments, p);
      } else {
        BraceGivesSource(t, p);
      }
    } else if t[0] != '}' {
      PlainStep(t, segments, p);
    }
  }

  /** A template parses to some segments exactly when it holds no newline, spells them, and states a source. */
  lemma {:induction false} TemplateParsesIff(t: string, segments: seq<Segment>, p: Providers)
    ensures ParseTemplate(t, p) == Some(segments) <==>
      (forall c :: c in t ==> c != '\r' && c != '\n') && Spelt(t, segments, p) && exists i :: 0 <= i < |segments| && segments[i].Source?
  {
    ParseFromIff(t, segments, p);
  }

  // ---------------------------------------------------------------- the round trip

  /** Parsing undoes printing on exactly the normal forms. */
  lemma {:induction false} TemplateRoundTripIff(segments: seq<Segment>, p: Providers)
    ensures ParseTemplate(Print(segments), p) == Some(segments) <==> NormalForm(segments, p)
  {
    if NormalForm(segments, p) {
      PrintedHasNoNewline(segments, p);
      PrintedIsParsed(segments, "", p);
      assert Flush("") + segments == segments;
    }
    if ParseTemplate(Print(segments), p) == Some(segments) {
      ParsedIsGood(Print(segments), "", p);
    }
  }

  /** Every accepted template, however it was spaced, parses to a normal form. */
  lemma ParsedTemplatesAreNormal(t: string, p: Providers)
    requires ParseTemplate(t, p).Some?
    ensures NormalForm(ParseTemplate(t, p).value, p)
  {
    ParsedIsGood(t, "", p);
  }

  // ---------------------------------------------------------------- resolving

  /** `resolve`: literals as they are, sources read, and a value with a newline refused. */
  function Resolve(segments: seq<Segment>, read: (string, string) -> Option<string>): Option<string> {
    if segments == [] then Some("")
    else
      var s, front := segments[|segments| - 1], Resolve(segments[..|segments| - 1], read);
      if front.None? then None
      else if s.Literal? then Some(front.value + s.text)
      else
        var value := read(s.provider, s.address);
        if value.None? || !NewlineFree(value.value) then None else Some(front.value + value.value)
  }

  method ResolveHeader(segments: seq<Segment>, read: (string, string) -> Option<string>) returns (r: Option<string>)
    ensures r == Resolve(segments, read)
  {
    var out, i := "", 0;
    while i < |segments|
      invariant 0 <= i <= |segments|
      invariant Resolve(segments[..i], read) == Some(out)
    {
      var s := segments[i];
      assert segments[..i + 1][..i] == segments[..i];
      if s.Literal? {
        out := out + s.text;
      } else {
        var value := read(s.provider, s.address);
        if value.None? || !NewlineFree(value.value) {
          ResolvePrefixFails(segments, read, i + 1);
          return None;
        }
        out := out + value.value;
      }
      i := i + 1;
    }
    assert segments[..|segments|] == segments;
    r := Some(out);
  }

  lemma {:induction false} ResolvePrefixFails(segments: seq<Segment>, read: (string, string) -> Option<string>, n: nat)
    requires n <= |segments| && Resolve(segments[..n], read).None?
    ensures Resolve(segments, read).None?
  {
    if n == |segments| {
      assert segments[..n] == segments;
    } else {
      assert segments[..|segments| - 1][..n] == segments[..n];
      ResolvePrefixFails(segments[..|segments| - 1], read, n);
    }
  }

  /** Whatever the secrets hold, no accepted header resolves to a value that carries a newline. */
  lemma {:induction false} ResolvedHasNoNewline(segments: seq<Segment>, p: Providers, read: (string, string) -> Option<string>)
    requires GoodSegments(segments, p) && Resolve(segments, read).Some?
    ensures NewlineFree(Resolve(segments, read).value)
  {
    if segments != [] {
      ResolvedHasNoNewline(segments[..|segments| - 1], p, read);
    }
  }

  /** The source reads, as a value a header may carry. */
  predicate Readable(s: Segment, read: (string, string) -> Option<string>) {
    s.Source? ==>
      var value := read(s.provider, s.address);
      value.Some? && forall c :: c in value.value ==> c != '\r' && c != '\n'
  }

  function Piece(s: Segment, read: (string, string) -> Option<string>): string
    requires Readable(s, read)
  {
    match s
    case Literal(text) => text
    case Source(provider, address) => read(provider, address).value
  }

  /** Where the piece of segment `i` starts: past all the pieces before it. */
  function Offset(segments: seq<Segment>, read: (string, string) -> Option<string>, i: nat): nat
    requires i <= |segments| && forall j :: 0 <= j < |segments| ==> Readable(segments[j], read)
  {
    if i == 0 then 0 else Offset(segments, read, i - 1) + |Piece(segments[i - 1], read)|
  }

  lemma {:induction false} OffsetOfFront(front: seq<Segment>, last: Segment, read: (string, string) -> Option<string>, i: nat)
    requires i <= |front| && forall j :: 0 <= j < |front| ==> Readable(front[j], read)
    requires Readable(last, read)
    ensures Offset(front + [last], read, i) == Offset(front, read, i)
  {
    if i > 0 { OffsetOfFront(front, last, read, i - 1); }
  }

  /** The value is the pieces end to end, in segment order. */
  ghost predicate Spells(value: string, segments: seq<Segment>, read: (string, string) -> Option<string>) {
    && (forall i :: 0 <= i < |segments| ==> Readable(segments[i], read))
    && |value| == Offset(segments, read, |segments|)
    && forall i :: 0 <= i < |segments| ==> HoldsPiece(value, segments, read, i)
  }

  ghost predicate HoldsPiece(value: string, segments: seq<Segment>, read: (string, string) -> Option<string>, i: nat)
    requires i < |segments| && forall j :: 0 <= j < |segments| ==> Readable(segments[j], read)
  {
    Offset(segments, read, i) + |Piece(segments[i], read)| <= |value|
    && value[Offset(segments, read, i)..][..|Piece(segments[i], read)|] == Piece(segments[i], read)
  }

  lemma SpellsOneMore(value: string, front: seq<Segment>, last: Segment, read: (string, string) -> Option<string>)
    requires Spells(value, front, read) && Readable(last, read)
    ensures Spells(value + Piece(last, read), front + [last], read)
  {
    var more, all := value + Piece(last, read), front + [last];
    forall i | 0 <= i < |all| ensures Readable(all[i], read) {
      assert all[i] == if i < |front| then front[i] else last;
    }
    LastPieceHeld(value, front, last, read);
    forall i | 0 <= i < |all| ensures HoldsPiece(more, all, read, i) {
      if i < |front| { StillHoldsPiece(value, front, last, read, i); }
    }
  }

  lemma {:induction false} LastPieceHeld(value: string, front: seq<Segment>, last: Segment, read: (string, string) -> Option<string>)
    requires Readable(last, read) && forall j :: 0 <= j < |front| ==> Readable(front[j], read)
    requires |value| == Offset(front, read, |front|)
    ensures HoldsPiece(value + Piece(last, read), front + [last], read, |front|)
    ensures |value + Piece(last, read)| == Offset(front + [last], read, |front| + 1)
  {
    OffsetOfFront(front, last, read, |front|);
    assert (value + Piece(last, read))[|value|..] == Piece(last, read);
  }

  lemma StillHoldsPiece(value: string, front: seq<Segment>, last: Segment, read: (string, string) -> Option<string>, i: nat)
    requires i < |front| && Readable(last, read) && forall j :: 0 <= j < |front| ==> Readable(front[j], read)
    requires HoldsPiece(value, front, read, i)
    ensures HoldsPiece(value + Piece(last, read), front + [last], read, i)
  {
    OffsetOfFront(front, last, read, i);
    var at, n := Offset(front, read, i), |Piece(front[i], read)|;
    assert (value + Piece(last, read))[at..][..n] == value[at..][..n];
  }

  /** A header resolves exactly when each of its sources reads a value free of newlines, and then to its
      literals and those values end to end, in the order the header states them. */
  lemma {:induction false} ResolvesIff(segments: seq<Segment>, read: (string, string) -> Option<string>)
    ensures Resolve(segments, read).Some? <==> forall i :: 0 <= i < |segments| ==> Readable(segments[i], read)
    ensures Resolve(segments, read).Some? ==> Spells(Resolve(segments, read).value, segments, read)
    decreases |segments|
  {
    if segments != [] {
      var front, last := segments[..|segments| - 1], segments[|segments| - 1];
      ResolvesIff(front, read);
      assert segments == front + [last];
      assert forall i :: 0 <= i < |front| ==> segments[i] == front[i];
      if Resolve(front, read).Some? && Readable(last, read) {
        SpellsOneMore(Resolve(front, read).value, front, last, read);
      }
    }
  }
}
