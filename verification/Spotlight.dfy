/**
 * Spotlighting: untrusted content is sanitised, optionally datamarked, and wrapped between
 * an opening and a closing delimiter.
 */
module Spotlight {
  import opened Text

  // "<nv-untrusted:v1>", "</nv-untrusted:v1>" and their neutral forms.
  const NAME: JsString := [0x6e, 0x76, 0x2d, 0x75, 0x6e, 0x74, 0x72, 0x75, 0x73, 0x74, 0x65, 0x64, 0x3a, 0x76, 0x31]
  const LT: Unit := 0x3c
  const GT: Unit := 0x3e
  const SLASH: Unit := 0x2f
  const LEFT_QUOTE: Unit := 0x2039
  const RIGHT_QUOTE: Unit := 0x203a
  const OPEN: JsString := [LT] + NAME + [GT]
  const CLOSE: JsString := [LT, SLASH] + NAME + [GT]
  const NEUTRAL_OPEN: JsString := [LEFT_QUOTE] + NAME + [RIGHT_QUOTE]
  const NEUTRAL_CLOSE: JsString := [LEFT_QUOTE, SLASH] + NAME + [RIGHT_QUOTE]
  const DATAMARK: Unit := 0xb7
  const TAB: Unit := 0x09
  const LF: Unit := 0x0a
  const CR: Unit := 0x0d
  const SPACE: Unit := 0x20

  // Occurrences

  predicate Occurs(d: JsString, s: JsString) {
    d <= s || (s != [] && Occurs(d, s[1..]))
  }

  lemma {:induction false} OccursAfter(d: JsString, s: JsString, k: nat)
    requires k <= |s| && Occurs(d, s[k..])
    ensures Occurs(d, s)
  {
    if k > 0 {
      assert s[1..][k - 1..] == s[k..];
      OccursAfter(d, s[1..], k - 1);
    } else {
      assert s[0..] == s;
    }
  }

  /** Where the first unit of `d` does not appear, `d` does not start. */
  lemma {:induction false} OccursInTail(d: JsString, front: JsString, tail: JsString)
    requires d != [] && d[0] !in front && Occurs(d, front + tail)
    ensures Occurs(d, tail)
  {
    if front == [] {
      assert front + tail == tail;
    } else {
      assert (front + tail)[1..] == front[1..] + tail;
      assert (front + tail)[0] == front[0];
      OccursInTail(d, front[1..], tail);
    }
  }

  // Sanitising

  /** `s.split(d).join(r)`. */
  function ReplaceAll(s: JsString, d: JsString, r: JsString): JsString
    requires d != []
    decreases |s|
  {
    if s == [] then []
    else if d <= s then r + ReplaceAll(s[|d|..], d, r)
    else [s[0]] + ReplaceAll(s[1..], d, r)
  }

  /** A prefix that avoids the replacement's first unit was copied from the source. */
  lemma {:induction false} PrefixCopied(x: JsString, s: JsString, d: JsString, r: JsString)
    requires d != [] && r != [] && r[0] !in x && x <= ReplaceAll(s, d, r)
    ensures x <= s
  {
    if x != [] {
      var out := ReplaceAll(s, d, r);
      assert x[0] == out[0];
      if !(d <= s) {
        assert out[1..] == ReplaceAll(s[1..], d, r);
        PrefixCopied(x[1..], s[1..], d, r);
      }
    }
  }

  /** No delimiter survives its own replacement. */
  lemma {:induction false} ReplacedIsGone(s: JsString, d: JsString, r: JsString)
    requires d != [] && r != [] && r[0] !in d && d[0] !in r
    ensures !Occurs(d, ReplaceAll(s, d, r))
    decreases |s|
  {
    var out := ReplaceAll(s, d, r);
    if d <= out {
      PrefixCopied(d, s, d, r);
    }
    if s != [] {
      if d <= s {
        ReplacedIsGone(s[|d|..], d, r);
        if Occurs(d, out) {
          OccursInTail(d, r, ReplaceAll(s[|d|..], d, r));
        }
      } else {
        ReplacedIsGone(s[1..], d, r);
        assert out[1..] == ReplaceAll(s[1..], d, r);
      }
    }
  }

  /** Replacing one delimiter creates no occurrence of another. */
  lemma {:induction false} ReplacingCreatesNone(c: JsString, s: JsString, d: JsString, r: JsString)
    requires c != [] && d != [] && r != [] && r[0] !in c && c[0] !in r && !Occurs(c, s)
    ensures !Occurs(c, ReplaceAll(s, d, r))
    decreases |s|
  {
    var out := ReplaceAll(s, d, r);
    if c <= out {
      PrefixCopied(c, s, d, r);
    }
    if s != [] {
      if d <= s {
        if Occurs(c, s[|d|..]) {
          OccursAfter(c, s, |d|);
        }
        ReplacingCreatesNone(c, s[|d|..], d, r);
        if Occurs(c, out) {
          OccursInTail(c, r, ReplaceAll(s[|d|..], d, r));
        }
      } else {
        ReplacingCreatesNone(c, s[1..], d, r);
        assert out[1..] == ReplaceAll(s[1..], d, r);
      }
    }
  }

  lemma {:induction false} NothingToReplace(s: JsString, d: JsString, r: JsString)
    requires d != [] && !Occurs(d, s)
    ensures ReplaceAll(s, d, r) == s
  {
    if s != [] {
      NothingToReplace(s[1..], d, r);
    }
  }

  /** `sanitizePayload`. */
  function Sanitize(payload: JsString): JsString {
    ReplaceAll(ReplaceAll(payload, CLOSE, NEUTRAL_CLOSE), OPEN, NEUTRAL_OPEN)
  }

  /** Sanitised content holds neither delimiter, and content that held neither is unchanged. */
  lemma SanitizeIff(payload: JsString)
    ensures !Occurs(OPEN, Sanitize(payload)) && !Occurs(CLOSE, Sanitize(payload))
    ensures Sanitize(payload) == payload <==> !Occurs(OPEN, payload) && !Occurs(CLOSE, payload)
  {
    var once := ReplaceAll(payload, CLOSE, NEUTRAL_CLOSE);
    ReplacedIsGone(payload, CLOSE, NEUTRAL_CLOSE);
    ReplacedIsGone(once, OPEN, NEUTRAL_OPEN);
    ReplacingCreatesNone(CLOSE, once, OPEN, NEUTRAL_OPEN);
    if !Occurs(OPEN, payload) && !Occurs(CLOSE, payload) {
      NothingToReplace(payload, CLOSE, NEUTRAL_CLOSE);
      NothingToReplace(payload, OPEN, NEUTRAL_OPEN);
    }
  }

  // Datamarking

  predicate IsBlank(u: Unit) {
    u == SPACE || u == TAB
  }

  function BlankRun(s: JsString): (n: nat)
    ensures n <= |s| && forall i :: 0 <= i < n ==> IsBlank(s[i])
  {
    if s != [] && IsBlank(s[0]) then 1 + BlankRun(s[1..]) else 0
  }

  /** The length of the match of `\r?\n|[ \t]{4,}` at the front, 0 for none. */
  function MatchLength(s: JsString): (n: nat)
    ensures n <= |s|
  {
    if s != [] && s[0] == LF then 1
    else if |s| > 1 && s[0] == CR && s[1] == LF then 2
    else if BlankRun(s) >= 4 then BlankRun(s)
    else 0
  }

  /** A datamark in front of every match. */
  function Mark(s: JsString): JsString
    decreases |s|
  {
    if s == [] then []
    else
      var m := MatchLength(s);
      if m > 0 then [DATAMARK] + (s[..m] + Mark(s[m..])) else [s[0]] + Mark(s[1..])
  }

  lemma MatchIsBlank(s: JsString)
    ensures forall i :: 0 <= i < MatchLength(s) ==> IsBlank(s[i]) || s[i] == LF || s[i] == CR
  {
  }

  /** Text without datamarks at the front of marked content was at the front of the content. */
  lemma {:induction false} PrefixUnmarked(x: JsString, s: JsString)
    requires DATAMARK !in x && x <= Mark(s)
    ensures x <= s
  {
    if x != [] {
      assert x[0] == Mark(s)[0];
      if MatchLength(s) == 0 {
        assert Mark(s)[1..] == Mark(s[1..]);
        PrefixUnmarked(x[1..], s[1..]);
      }
    }
  }

  /** Datamarks create no occurrence of a delimiter. */
  lemma {:induction false} MarkingCreatesNone(d: JsString, s: JsString)
    requires d != [] && d[0] == LT && DATAMARK !in d && !Occurs(d, s)
    ensures !Occurs(d, Mark(s))
    decreases |s|
  {
    var out := Mark(s);
    if d <= out {
      PrefixUnmarked(d, s);
    }
    if s != [] {
      var m := MatchLength(s);
      if m > 0 {
        if Occurs(d, s[m..]) {
          OccursAfter(d, s, m);
        }
        MarkingCreatesNone(d, s[m..]);
        MatchIsBlank(s);
        if Occurs(d, out) {
          assert out == ([DATAMARK] + s[..m]) + Mark(s[m..]);
          OccursInTail(d, [DATAMARK] + s[..m], Mark(s[m..]));
        }
      } else {
        MarkingCreatesNone(d, s[1..]);
        assert out[1..] == Mark(s[1..]);
      }
    }
  }

  // Removing the datamarks

  function Unmark(u: JsString): JsString
    decreases |u|
  {
    if u == [] then []
    else if u[0] == DATAMARK && MatchLength(u[1..]) > 0 then
      var m := MatchLength(u[1..]);
      u[1..][..m] + Unmark(u[1..][m..])
    else [u[0]] + Unmark(u[1..])
  }

  lemma {:induction false} RunInMarked(s: JsString)
    ensures MatchLength(s) == 0 ==> BlankRun(Mark(s)) == BlankRun(s)
    ensures MatchLength(s) > 0 ==> BlankRun(Mark(s)) == 0
    decreases |s|
  {
    if s != [] && MatchLength(s) == 0 {
      assert Mark(s)[1..] == Mark(s[1..]);
      if IsBlank(s[0]) {
        RunInMarked(s[1..]);
        if MatchLength(s[1..]) > 0 {
          assert s[1] == LF || s[1] == CR;
        }
      }
    }
  }

  /** Marked content never starts with a match. */
  lemma MarkedHasNoMatch(s: JsString)
    ensures MatchLength(Mark(s)) == 0
  {
    RunInMarked(s);
    if s != [] && MatchLength(s) == 0 && s[0] == CR {
      assert Mark(s)[1..] == Mark(s[1..]);
      assert |s| > 1 && MatchLength(s[1..]) == 0 ==> Mark(s[1..])[0] == s[1];
    }
  }

  lemma {:induction false} RunThenOther(s: JsString, t: JsString)
    requires forall i :: 0 <= i < |s| ==> IsBlank(s[i])
    requires t != [] ==> !IsBlank(t[0])
    ensures BlankRun(s + t) == |s|
  {
    if s == [] {
      assert s + t == t;
    } else {
      assert (s + t)[1..] == s[1..] + t;
      RunThenOther(s[1..], t);
    }
  }

  lemma {:induction false} RunStops(s: JsString)
    ensures BlankRun(s) < |s| ==> !IsBlank(s[BlankRun(s)])
  {
    if s != [] && IsBlank(s[0]) {
      RunStops(s[1..]);
    }
  }

  /** Behind its datamark a match is read back whole. */
  lemma MatchSurvives(s: JsString)
    requires MatchLength(s) > 0
    ensures MatchLength(s[..MatchLength(s)] + Mark(s[MatchLength(s)..])) == MatchLength(s)
  {
    var m := MatchLength(s);
    if s[0] != LF && s[0] != CR {
      RunStops(s);
      var rest := s[m..];
      if rest != [] {
        assert Mark(rest)[0] == DATAMARK || Mark(rest)[0] == rest[0];
      }
      RunThenOther(s[..m], Mark(rest));
    }
  }

  /** Each step of marking covers a stretch of the content that unmarking gives back. */
  lemma UnmarkStep(s: JsString) returns (n: nat)
    requires s != []
    ensures 1 <= n <= |s| && Unmark(Mark(s)) == s[..n] + Unmark(Mark(s[n..]))
  {
    var m, u := MatchLength(s), Mark(s);
    if m > 0 {
      n := m;
      MatchSurvives(s);
      assert u[1..] == s[..m] + Mark(s[m..]);
      assert u[1..][..m] == s[..m] && u[1..][m..] == Mark(s[m..]);
    } else {
      n := 1;
      MarkedHasNoMatch(s[1..]);
      assert u[1..] == Mark(s[1..]);
    }
  }

  /** Datamarking loses nothing: the marks can be told apart from the content. */
  lemma {:induction false} UnmarkMark(s: JsString)
    ensures Unmark(Mark(s)) == s
    decreases |s|
  {
    if s != [] {
      var n := UnmarkStep(s);
      UnmarkMark(s[n..]);
      assert s[..n] + s[n..] == s;
    }
  }

  // Wrapping

  datatype Source = Knowledge | Memory | ToolResult | ChannelInput | UserAttachment

  // "source=", "knowledge", "memory", "tool_result", "channel_input" and "user_attachment".
  const SOURCE_IS: JsString := [0x73, 0x6f, 0x75, 0x72, 0x63, 0x65, 0x3d]

  function SourceName(source: Source): JsString {
    match source
    case Knowledge => [0x6b, 0x6e, 0x6f, 0x77, 0x6c, 0x65, 0x64, 0x67, 0x65]
    case Memory => [0x6d, 0x65, 0x6d, 0x6f, 0x72, 0x79]
    case ToolResult => [0x74, 0x6f, 0x6f, 0x6c, 0x5f, 0x72, 0x65, 0x73, 0x75, 0x6c, 0x74]
    case ChannelInput => [0x63, 0x68, 0x61, 0x6e, 0x6e, 0x65, 0x6c, 0x5f, 0x69, 0x6e, 0x70, 0x75, 0x74]
    case UserAttachment => [0x75, 0x73, 0x65, 0x72, 0x5f, 0x61, 0x74, 0x74, 0x61, 0x63, 0x68, 0x6d, 0x65, 0x6e, 0x74]
  }

  function Inner(content: JsString, datamark: bool): JsString {
    if datamark then Mark(Sanitize(content)) else Sanitize(content)
  }

  /** `spotlight`. */
  function Wrap(source: Source, content: JsString, datamark: bool): JsString {
    OPEN + (SOURCE_IS + SourceName(source) + [LF] + (Inner(content, datamark) + ([LF] + CLOSE)))
  }

  /** `isSpotlighted`. */
  predicate IsSpotlighted(payload: JsString) {
    OPEN <= payload && |payload| >= |CLOSE| && payload[|payload| - |CLOSE|..] == CLOSE
  }

  predicate At(d: JsString, s: JsString, p: nat) {
    p + |d| <= |s| && s[p..p + |d|] == d
  }

  lemma {:induction false} AtOccurs(d: JsString, s: JsString, p: nat)
    requires At(d, s, p)
    ensures Occurs(d, s)
  {
    if p > 0 {
      assert s[1..][p - 1..p - 1 + |d|] == s[p..p + |d|];
      AtOccurs(d, s[1..], p - 1);
    }
  }

  lemma InnerHasNone(content: JsString, datamark: bool)
    ensures !Occurs(OPEN, Inner(content, datamark)) && !Occurs(CLOSE, Inner(content, datamark))
  {
    SanitizeIff(content);
    MarkingCreatesNone(OPEN, Sanitize(content));
    MarkingCreatesNone(CLOSE, Sanitize(content));
  }

  /** A delimiter does not start where its first unit does not appear. */
  lemma SkipsPlain(d: JsString, front: JsString, tail: JsString, p: nat)
    requires d != [] && d[0] !in front && At(d, front + tail, p)
    ensures p >= |front| && At(d, tail, p - |front|)
  {
    var out := front + tail;
    assert out[p] == d[0];
    if p >= |front| {
      assert out[p..p + |d|] == tail[p - |front|..p - |front| + |d|];
    }
  }

  lemma UnitWithin(d: JsString, out: JsString, p: nat, k: nat)
    requires At(d, out, p) && p <= k < p + |d|
    ensures out[k] in d
  {
    assert out[p..p + |d|][k - p] == out[k];
  }

  /** Nor inside content without an occurrence, nor across the newline after it. */
  lemma SkipsContent(d: JsString, inner: JsString, tail: JsString, p: nat)
    requires d != [] && LF !in d && !Occurs(d, inner) && tail != [] && tail[0] == LF && At(d, inner + tail, p)
    ensures p >= |inner| && At(d, tail, p - |inner|)
  {
    var out := inner + tail;
    if p + |d| <= |inner| {
      assert inner[p..p + |d|] == out[p..p + |d|];
      AtOccurs(d, inner, p);
    } else if p < |inner| {
      UnitWithin(d, out, p, |inner|);
    } else {
      assert out[p..p + |d|] == tail[p - |inner|..p - |inner| + |d|];
    }
  }

  /** In text that starts with `<` and has no other, a delimiter can only start at the front. */
  lemma OnlyAtFront(d: JsString, rest: JsString, p: nat)
    requires d != [] && d[0] == LT && LT !in rest && At(d, [LT] + rest, p)
    ensures p == 0
  {
    assert ([LT] + rest)[p] == d[0];
  }

  lemma OnlyAtFrontOrLater(d: JsString, open: JsString, rest: JsString, p: nat)
    requires d != [] && d[0] == LT && LT !in open && At(d, [LT] + (open + rest), p)
    ensures p == 0 || (p > |open| && At(d, rest, p - 1 - |open|))
  {
    if p > 0 {
      assert ([LT] + (open + rest))[p..p + |d|] == (open + rest)[p - 1..p - 1 + |d|];
      SkipsPlain(d, open, rest, p - 1);
    }
  }

  lemma OnlyAfterContent(d: JsString, inner: JsString, close: JsString, p: nat)
    requires d != [] && d[0] == LT && LF !in d && !Occurs(d, inner) && LT !in close
    requires At(d, inner + ([LF] + ([LT] + close)), p)
    ensures p == |inner| + 1 && At(d, [LT] + close, 0)
  {
    SkipsContent(d, inner, [LF] + ([LT] + close), p);
    SkipsPlain(d, [LF], [LT] + close, p - |inner|);
    OnlyAtFront(d, close, p - |inner| - 1);
  }

  /** Between a header without `<` and a newline, a delimiter can only start where the wrapper's two do. */
  lemma OnlyAtEnds(d: JsString, open: JsString, header: JsString, inner: JsString, close: JsString, p: nat)
    requires d != [] && d[0] == LT && LF !in d && !Occurs(d, inner) && LT !in open && LT !in header && LT !in close
    requires At(d, [LT] + (open + (header + (inner + ([LF] + ([LT] + close))))), p)
    ensures p == 0 || (p == |open| + |header| + |inner| + 2 && At(d, [LT] + close, 0))
  {
    var body := inner + ([LF] + ([LT] + close));
    OnlyAtFrontOrLater(d, open, header + body, p);
    if p > 0 {
      SkipsPlain(d, header, body, p - 1 - |open|);
      OnlyAfterContent(d, inner, close, p - 1 - |open| - |header|);
    }
  }

  /** The delimiters without their first unit. */
  const OPEN_REST: JsString := NAME + [GT]
  const CLOSE_REST: JsString := [SLASH] + NAME + [GT]

  lemma DelimiterFacts()
    ensures OPEN == [LT] + OPEN_REST && CLOSE == [LT] + CLOSE_REST
    ensures LT !in OPEN_REST && LT !in CLOSE_REST && LF !in OPEN && LF !in CLOSE
    ensures OPEN_REST[0] != CLOSE_REST[0]
  {
  }

  lemma WrapShape(source: Source, content: JsString, datamark: bool)
    ensures var header, inner := SOURCE_IS + SourceName(source) + [LF], Inner(content, datamark);
      && Wrap(source, content, datamark) == [LT] + (OPEN_REST + (header + (inner + ([LF] + ([LT] + CLOSE_REST)))))
  {
    DelimiterFacts();
    var header, inner := SOURCE_IS + SourceName(source) + [LF], Inner(content, datamark);
    Associate([LT], OPEN_REST, header + (inner + ([LF] + CLOSE)));
  }

  lemma NamesArePlain(source: Source)
    ensures LT !in SourceName(source)
  {
    match source
    case Knowledge =>
    case Memory =>
    case ToolResult =>
    case ChannelInput =>
    case UserAttachment =>
  }

  lemma HeaderIsPlain(source: Source)
    ensures LT !in SOURCE_IS + SourceName(source) + [LF]
  {
    NamesArePlain(source);
    assert LT !in SOURCE_IS;
  }

  lemma OpensOnce(source: Source, content: JsString, datamark: bool, p: nat)
    requires At(OPEN, Wrap(source, content, datamark), p)
    ensures p == 0
  {
    HeaderIsPlain(source);
    InnerHasNone(content, datamark);
    DelimiterFacts();
    WrapShape(source, content, datamark);
    OnlyAtEnds(OPEN, OPEN_REST, SOURCE_IS + SourceName(source) + [LF], Inner(content, datamark), CLOSE_REST, p);
    assert CLOSE[1] != OPEN[1];
  }

  lemma ClosesOnce(source: Source, content: JsString, datamark: bool, p: nat)
    requires At(CLOSE, Wrap(source, content, datamark), p)
    ensures p == |Wrap(source, content, datamark)| - |CLOSE|
  {
    HeaderIsPlain(source);
    InnerHasNone(content, datamark);
    DelimiterFacts();
    WrapShape(source, content, datamark);
    assert Wrap(source, content, datamark)[1] == OPEN[1] && CLOSE[1] != OPEN[1];
    OnlyAtEnds(CLOSE, OPEN_REST, SOURCE_IS + SourceName(source) + [LF], Inner(content, datamark), CLOSE_REST, p);
  }

  lemma EndsAsWrapped(source: Source, content: JsString, datamark: bool)
    ensures var out := Wrap(source, content, datamark);
      IsSpotlighted(out) && At(OPEN, out, 0) && At(CLOSE, out, |out| - |CLOSE|)
  {
    var out := Wrap(source, content, datamark);
    var front := OPEN + (SOURCE_IS + SourceName(source) + [LF] + (Inner(content, datamark) + [LF]));
    assert out == front + CLOSE;
  }

  /**
   * For every content, source and mode the result holds one opening and one closing
   * delimiter, at its two ends, and is recognised as spotlighted.
   */
  lemma SpotlightDelimits(source: Source, content: JsString, datamark: bool)
    ensures var out := Wrap(source, content, datamark);
      && IsSpotlighted(out)
      && (forall p :: At(OPEN, out, p) <==> p == 0)
      && (forall p :: At(CLOSE, out, p) <==> p == |out| - |CLOSE|)
  {
    var out := Wrap(source, content, datamark);
    EndsAsWrapped(source, content, datamark);
    forall p: nat | At(OPEN, out, p) ensures p == 0 {
      OpensOnce(source, content, datamark, p);
    }
    forall p: nat | At(CLOSE, out, p) ensures p == |out| - |CLOSE| {
      ClosesOnce(source, content, datamark, p);
    }
  }
}
