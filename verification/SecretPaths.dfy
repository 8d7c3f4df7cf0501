/** internal/mcpserver/secretpath.go: the registry of base-url path prefixes this process must not emit,
    and the redaction every error text goes through. */
module SecretPaths {
  import opened Text

  const MASK := "/<redacted>"

  function TrimSlashes(s: string): string {
    if s != "" && s[|s| - 1] == '/' then TrimSlashes(s[..|s| - 1]) else s
  }

  /** The prefix a registration stands for; empty means it registers nothing. */
  function Normalised(prefix: string): string { TrimSlashes(TrimSpace(prefix)) }

  /** `strings.ReplaceAll` of a non-empty pattern by the mask, left to right. */
  function ReplaceAll(text: string, pattern: string): string
    requires pattern != ""
    decreases |text|
  {
    if text == "" then ""
    else if pattern <= text then MASK + ReplaceAll(text[|pattern|..], pattern)
    else [text[0]] + ReplaceAll(text[1..], pattern)
  }

  ghost predicate Contains(text: string, pattern: string) {
    exists i :: 0 <= i <= |text| && pattern <= text[i..]
  }

  predicate NonEmpty(prefixes: seq<string>) { forall i :: 0 <= i < |prefixes| ==> prefixes[i] != "" }

  function Redact(text: string, prefixes: seq<string>): string
    requires NonEmpty(prefixes)
    decreases |prefixes|
  {
    if prefixes == [] then text
    else ReplaceAll(Redact(text, prefixes[..|prefixes| - 1]), prefixes[|prefixes| - 1])
  }

  predicate Registrable(p: string) { p != "" && p[|p| - 1] != '/' }

  class Registry {
    var prefixes: seq<string>

    /** Registered prefixes are distinct, non-empty, and end in no slash. */
    ghost predicate Valid() reads this {
      && (forall i, j :: 0 <= i < j < |prefixes| ==> prefixes[i] != prefixes[j])
      && (forall i :: 0 <= i < |prefixes| ==> Registrable(prefixes[i]))
    }

    constructor ()
      ensures Valid() && prefixes == []
    {
      prefixes := [];
    }

    method Register(prefix: string)
      requires Valid()
      modifies this
      ensures Valid()
      ensures var p := Normalised(prefix);
              prefixes == if p == "" || p in old(prefixes) then old(prefixes) else old(prefixes) + [p]
    {
      var trimmed := Normalised(prefix);
      TrimSlashesEnds(TrimSpace(prefix));
      if trimmed == "" || trimmed == "/" { return; }
      var i := 0;
      while i < |prefixes|
        invariant 0 <= i <= |prefixes|
        invariant forall j :: 0 <= j < i ==> prefixes[j] != trimmed
      {
        if prefixes[i] == trimmed { return; }
        i := i + 1;
      }
      prefixes := prefixes + [trimmed];
    }

    method RedactText(text: string) returns (out: string)
      requires Valid()
      ensures NonEmpty(prefixes) && out == Redact(text, prefixes)
    {
      out := text;
      var i := 0;
      while i < |prefixes|
        invariant 0 <= i <= |prefixes|
        invariant out == Redact(text, prefixes[..i])
      {
        assert prefixes[..i + 1][..i] == prefixes[..i];
        out := ReplaceAll(out, prefixes[i]);
        i := i + 1;
      }
      assert prefixes[..|prefixes|] == prefixes;
    }
  }

  lemma {:induction false} TrimSlashesEnds(s: string)
    ensures TrimSlashes(s) <= s
    ensures TrimSlashes(s) != "" ==> TrimSlashes(s)[|TrimSlashes(s)| - 1] != '/'
    decreases |s|
  {
    if s != "" && s[|s| - 1] == '/' {
      TrimSlashesEnds(s[..|s| - 1]);
    }
  }

  lemma {:induction false} TrimSlashesCuts(s: string) returns (slashes: string)
    ensures s == TrimSlashes(s) + slashes && forall i :: 0 <= i < |slashes| ==> slashes[i] == '/'
    decreases |s|
  {
    if s != "" && s[|s| - 1] == '/' {
      var more := TrimSlashesCuts(s[..|s| - 1]);
      slashes := more + "/";
    } else {
      slashes := "";
    }
  }

  /** A registration stands for its text less the white space around it and the slashes at its end. */
  lemma NormalisedCuts(prefix: string) returns (left: string, slashes: string, right: string)
    ensures prefix == left + Normalised(prefix) + slashes + right
    ensures AllSpace(left) && AllSpace(right) && (forall i :: 0 <= i < |slashes| ==> slashes[i] == '/')
    ensures Normalised(prefix) != "" ==> !IsSpace(Normalised(prefix)[0]) && Normalised(prefix)[|Normalised(prefix)| - 1] != '/'
  {
    left, right := TrimSpaceCuts(prefix);
    slashes := TrimSlashesCuts(TrimSpace(prefix));
    TrimSlashesEnds(TrimSpace(prefix));
    if Normalised(prefix) != "" { assert Normalised(prefix)[0] == TrimSpace(prefix)[0]; }
  }

  /** What an escaped URL path registers as. */
  predicate PathPrefix(p: string) {
    && |p| >= 2 && p[0] == '/' && p[|p| - 1] != '/'
    && '<' !in p && '>' !in p
  }

  /** A rooted URL path with no angle brackets registers as such a prefix, or as nothing. */
  lemma RegisteredPathsArePrefixes(path: string)
    requires Trimmed(path) && (path != "" ==> path[0] == '/') && '<' !in path && '>' !in path
    ensures Normalised(path) == "" || PathPrefix(Normalised(path))
  {
    TrimSpaceTrims(path);
    TrimSlashesEnds(path);
    assert forall c :: c in TrimSlashes(path) ==> c in path;
  }

  /** Laid over the mask at some offset, so that they share a position, the prefix spells what the mask
      spells wherever they meet. */
  ghost predicate OverlapsAt(p: string, d: int) {
    -|p| < d < |MASK| && forall k :: 0 <= k < |p| && 0 <= d + k < |MASK| ==> p[k] == MASK[d + k]
  }

  ghost predicate Clear(p: string) { p != "" && forall d: int :: !OverlapsAt(p, d) }

  /** A path prefix is clear of the mask. */
  lemma PathPrefixIsClear(p: string)
    requires PathPrefix(p)
    ensures Clear(p)
  {
    assert MASK[1] == '<' && forall k :: 0 < k < |MASK| ==> MASK[k] != '/';
    forall d: int | -|p| < d < |MASK| ensures !OverlapsAt(p, d) {
      if d > 0 {
        assert p[0] != MASK[d + 0];
      } else if 1 - d < |p| {
        assert p[1 - d] in p && p[1 - d] != MASK[d + (1 - d)];
      } else {
        assert p[-d] != MASK[d + -d];
      }
    }
  }

  /** Neither a clear prefix nor a piece off its end begins inside a mask. */
  lemma NothingStartsInMask(p: string, d: int, rest: string)
    requires Clear(p) && -|p| < d < |MASK|
    ensures d >= 0 ==> !(p <= (MASK + rest)[d..])
    ensures d <= 0 ==> !(p[-d..] <= MASK + rest)
  {
    assert !OverlapsAt(p, d);
    var k :| 0 <= k < |p| && 0 <= d + k < |MASK| && p[k] != MASK[d + k];
    assert (MASK + rest)[d + k] == MASK[d + k];
    if d >= 0 {
      assert (MASK + rest)[d..][k] == (MASK + rest)[d + k];
    }
    if d <= 0 {
      assert p[-d..][d + k] == p[k];
    }
  }

  /** Where the output starts with a piece off the end of a clear prefix, the input did. */
  lemma {:induction false} OutputPrefixIsInputPrefix(text: string, pattern: string, p: string, k: int)
    requires pattern != "" && Clear(p) && 0 <= k <= |p| && p[k..] <= ReplaceAll(text, pattern)
    ensures p[k..] <= text
    ensures k < |p| ==> !(pattern <= text)
    decreases |text|
  {
    if k < |p| {
      if pattern <= text {
        NothingStartsInMask(p, -k, ReplaceAll(text[|pattern|..], pattern));
      } else {
        assert p[k..][1..] == p[k + 1..] && ReplaceAll(text, pattern)[1..] == ReplaceAll(text[1..], pattern);
        OutputPrefixIsInputPrefix(text[1..], pattern, p, k + 1);
        assert p[k..] == [p[k]] + p[k + 1..] && text == [text[0]] + text[1..];
      }
    }
  }

  /** An occurrence in masked output starts past the mask. */
  lemma PastTheMask(rest: string, p: string, i: nat)
    requires Clear(p) && i <= |MASK + rest| && p <= (MASK + rest)[i..]
    ensures i >= |MASK| && p <= rest[i - |MASK|..]
  {
    if i < |MASK| {
      NothingStartsInMask(p, i, rest);
    } else {
      assert (MASK + rest)[i..] == rest[i - |MASK|..];
    }
  }

  /** A prefix in the output lies clear of every mask, so it was in the input, and not where the pattern
      itself would have been replaced. */
  lemma {:induction false} OutputOccurrence(text: string, pattern: string, p: string, i: nat)
    requires pattern != "" && Clear(p)
    requires i <= |ReplaceAll(text, pattern)| && p <= ReplaceAll(text, pattern)[i..]
    ensures Contains(text, p) && p != pattern
    decreases |text|
  {
    if text != "" && pattern <= text {
      PastTheMask(ReplaceAll(text[|pattern|..], pattern), p, i);
      OutputOccurrence(text[|pattern|..], pattern, p, i - |MASK|);
      ContainsAfter(text, |pattern|, p);
    } else if i == 0 {
      assert ReplaceAll(text, pattern)[0..] == ReplaceAll(text, pattern) && p[0..] == p && text[0..] == text;
      OutputPrefixIsInputPrefix(text, pattern, p, 0);
    } else {
      assert ReplaceAll(text, pattern)[i..] == ReplaceAll(text[1..], pattern)[i - 1..];
      OutputOccurrence(text[1..], pattern, p, i - 1);
      ContainsAfter(text, 1, p);
    }
  }

  lemma ContainsAfter(text: string, n: nat, p: string)
    requires n <= |text| && Contains(text[n..], p)
    ensures Contains(text, p)
  {
    var i :| 0 <= i <= |text[n..]| && p <= text[n..][i..];
    assert text[n..][i..] == text[n + i..];
  }

  /** One replacement removes its own pattern and re-creates no other prefix. */
  lemma {:induction false} ReplaceCreatesNothing(text: string, pattern: string, p: string)
    requires pattern != "" && Clear(p) && Contains(ReplaceAll(text, pattern), p)
    ensures Contains(text, p) && p != pattern
  {
    var i :| 0 <= i <= |ReplaceAll(text, pattern)| && p <= ReplaceAll(text, pattern)[i..];
    OutputOccurrence(text, pattern, p, i);
  }

  /** No registered prefix that is clear of the mask survives redaction, in whatever order prefixes were registered and however they
      overlap in the text. */
  lemma {:induction false} NoPrefixSurvives(text: string, prefixes: seq<string>, k: nat)
    requires NonEmpty(prefixes) && k < |prefixes| && Clear(prefixes[k])
    ensures !Contains(Redact(text, prefixes), prefixes[k])
    decreases |prefixes|
  {
    var n := |prefixes| - 1;
    if k < n {
      NoPrefixSurvives(text, prefixes[..n], k);
    }
    StaysGone(Redact(text, prefixes[..n]), prefixes[n], prefixes[k]);
  }

  lemma {:induction false} StaysGone(text: string, pattern: string, p: string)
    requires pattern != "" && Clear(p) && (p == pattern || !Contains(text, p))
    ensures !Contains(ReplaceAll(text, pattern), p)
  {
    if Contains(ReplaceAll(text, pattern), p) {
      ReplaceCreatesNothing(text, pattern, p);
    }
  }

  lemma {:induction false} ReplaceLeavesAlone(text: string, pattern: string)
    requires pattern != "" && !Contains(text, pattern)
    ensures ReplaceAll(text, pattern) == text
    decreases |text|
  {
    if text != "" {
      assert text[0..] == text;
      if Contains(text[1..], pattern) { ContainsAfter(text, 1, pattern); }
      ReplaceLeavesAlone(text[1..], pattern);
    }
  }

  /** The first occurrence is masked, what stands before it stays, and the rest is replaced in its turn. */
  lemma {:induction false} FirstOccurrenceMasked(before: string, pattern: string, after: string)
    requires pattern != "" && forall i :: 0 <= i < |before| ==> !(pattern <= (before + pattern + after)[i..])
    ensures ReplaceAll(before + pattern + after, pattern) == before + "/<redacted>" + ReplaceAll(after, pattern)
    decreases |before|
  {
    var text := before + pattern + after;
    if before == "" {
      assert text[|pattern|..] == after;
    } else {
      assert text[0..] == text && text[1..] == before[1..] + pattern + after;
      forall i | 0 <= i < |before[1..]| ensures !(pattern <= (before[1..] + pattern + after)[i..]) {
        assert text[1..][i..] == text[i + 1..];
      }
      FirstOccurrenceMasked(before[1..], pattern, after);
      assert before + MASK + ReplaceAll(after, pattern) == [before[0]] + (before[1..] + MASK + ReplaceAll(after, pattern));
    }
  }

  lemma {:induction false} CleanTextUntouched(text: string, prefixes: seq<string>)
    requires NonEmpty(prefixes) && forall k :: 0 <= k < |prefixes| ==> !Contains(text, prefixes[k])
    ensures Redact(text, prefixes) == text
    decreases |prefixes|
  {
    if prefixes != [] {
      CleanTextUntouched(text, prefixes[..|prefixes| - 1]);
      ReplaceLeavesAlone(text, prefixes[|prefixes| - 1]);
    }
  }

  /** Redaction changes a text exactly when it carries a registered prefix. */
  lemma {:induction false} RedactionChangesIff(text: string, prefixes: seq<string>)
    requires forall k :: 0 <= k < |prefixes| ==> Clear(prefixes[k])
    ensures NonEmpty(prefixes)
    ensures Redact(text, prefixes) != text <==> exists k :: 0 <= k < |prefixes| && Contains(text, prefixes[k])
  {
    assert NonEmpty(prefixes);
    if k :| 0 <= k < |prefixes| && Contains(text, prefixes[k]) {
      NoPrefixSurvives(text, prefixes, k);
    } else {
      CleanTextUntouched(text, prefixes);
    }
  }

  // ---------------------------------------------------------------- prefixes that meet the mask

  /** What the registry can hold. */
  ghost predicate Registered(prefixes: seq<string>) {
    && (forall i, j :: 0 <= i < j < |prefixes| ==> prefixes[i] != prefixes[j])
    && (forall i :: 0 <= i < |prefixes| ==> Registrable(prefixes[i]))
  }

  /** A pattern that shares no character with the mask and fits nowhere but where it is put, between
      strings shorter than it. */
  function Marker(n: nat): string { "Y" + seq(n + 1, _ => 'Z') }

  lemma {:induction false} MarkerIsReplaced(before: string, after: string, n: nat)
    requires |before| <= n && |after| <= n
    ensures ReplaceAll(before + Marker(n) + after, Marker(n)) == before + MASK + after
    decreases |before|
  {
    var q := Marker(n);
    var text := before + q + after;
    if before == "" {
      assert text[|q|..] == after;
      assert !Contains(after, q);
      ReplaceLeavesAlone(after, q);
    } else {
      assert text[1..] == before[1..] + q + after;
      assert text[|before|] == 'Y' && q[|before|] == 'Z';
      MarkerIsReplaced(before[1..], after, n);
      assert before + MASK + after == [before[0]] + (before[1..] + MASK + after);
    }
  }

  /** What stands before and after the mask when `p` is laid over it at `d`. */
  function Before(p: string, d: int): string
    requires -|p| < d
  {
    if d < 0 then p[..-d] else ""
  }

  function After(p: string, d: int): string
    requires d < |MASK|
  {
    if |MASK| - d < |p| then p[|MASK| - d..] else ""
  }

  lemma MaskCompletes(p: string, d: int)
    requires OverlapsAt(p, d)
    ensures Contains(Before(p, d) + MASK + After(p, d), p)
  {
    var out, i := Before(p, d) + MASK + After(p, d), if d < 0 then 0 else d;
    assert |p| <= |out[i..]| && forall k :: 0 <= k < |p| ==> out[i..][k] == p[k];
    assert p <= out[i..];
  }

  /** The prefix itself is nowhere in the text that will complete it. */
  lemma MarkerHidesPrefix(p: string, d: int, n: nat)
    requires p != "" && OverlapsAt(p, d)
    ensures !Contains(Before(p, d) + Marker(n) + After(p, d), p) && p != Marker(n)
  {
    var a, q := |Before(p, d)|, Marker(n);
    var text := Before(p, d) + q + After(p, d);
    assert p[a] == MASK[d + a] && MASK[d + a] in MASK;
    assert forall k :: 0 <= k < |q| ==> q[k] !in MASK && text[a + k] == q[k];
    forall i | 0 <= i <= |text| ensures !(p <= text[i..]) {
      if i + |p| <= |text| {
        assert text[i..][a] == text[a + i] == q[i];
      }
    }
  }

  /** A prefix that meets the mask anywhere can survive: another prefix, masked after it, spells it out. */
  lemma OverlapSurvives(p: string, d: int)
    requires Registrable(p) && OverlapsAt(p, d)
    ensures var text, prefixes := Before(p, d) + Marker(|p|) + After(p, d), [p, Marker(|p|)];
            && Registered(prefixes) && NonEmpty(prefixes)
            && Contains(Redact(text, prefixes), p)
  {
    var text, q := Before(p, d) + Marker(|p|) + After(p, d), Marker(|p|);
    MarkerHidesPrefix(p, d, |p|);
    SecondReplaces(text, p, q);
    MarkerIsReplaced(Before(p, d), After(p, d), |p|);
    MaskCompletes(p, d);
  }

  lemma {:induction false} SecondReplaces(text: string, p: string, q: string)
    requires p != "" && q != "" && !Contains(text, p)
    ensures NonEmpty([p, q]) && Redact(text, [p, q]) == ReplaceAll(text, q)
  {
    ReplaceLeavesAlone(text, p);
    assert [p, q][..1] == [p] && [p][..0] == [];
    assert Redact(text, [p]) == ReplaceAll(Redact(text, []), p);
  }

  ghost predicate GoneFrom(p: string, text: string, prefixes: seq<string>) {
    NonEmpty(prefixes) && !Contains(Redact(text, prefixes), p)
  }

  ghost predicate NeverSurvives(p: string) {
    forall text, prefixes :: Registered(prefixes) && p in prefixes ==> GoneFrom(p, text, prefixes)
  }

  /** A registered prefix survives in no text and beside no other prefixes exactly when it is clear of the
      mask. */
  lemma NeverSurvivesIff(p: string)
    requires Registrable(p)
    ensures NeverSurvives(p) <==> Clear(p)
  {
    if Clear(p) {
      forall text, prefixes | Registered(prefixes) && p in prefixes ensures GoneFrom(p, text, prefixes) {
        var k :| 0 <= k < |prefixes| && prefixes[k] == p;
        NoPrefixSurvives(text, prefixes, k);
      }
    } else {
      var d: int :| OverlapsAt(p, d);
      OverlapSurvives(p, d);
      assert !GoneFrom(p, Before(p, d) + Marker(|p|) + After(p, d), [p, Marker(|p|)]);
    }
  }

  /** The shape matters. A prefix spelt inside the mask cannot be removed: masking it, or anything after
      it, writes it back. */
  lemma {:induction false} PrefixInsideTheMaskSurvives(text: string, pattern: string, p: string)
    requires pattern != "" && Contains(text, pattern) && Contains(MASK, p)
    ensures Contains(ReplaceAll(text, pattern), p)
  {
    var i :| 0 <= i <= |text| && pattern <= text[i..];
    MaskAppears(text, pattern, i, p);
  }

  lemma {:induction false} MaskAppears(text: string, pattern: string, i: nat, p: string)
    requires pattern != "" && i <= |text| && pattern <= text[i..] && Contains(MASK, p)
    ensures Contains(ReplaceAll(text, pattern), p)
    decreases |text|
  {
    var out := ReplaceAll(text, pattern);
    if pattern <= text {
      var j :| 0 <= j <= |MASK| && p <= MASK[j..];
      assert out[j..] == MASK[j..] + ReplaceAll(text[|pattern|..], pattern);
    } else {
      assert i > 0 by { assert text[0..] == text; }
      assert text[1..][i - 1..] == text[i..];
      MaskAppears(text[1..], pattern, i - 1, p);
      assert out[1..] == ReplaceAll(text[1..], pattern);
      ContainsAfter(out, 1, p);
    }
  }
}
