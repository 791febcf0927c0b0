/** The tolerant W3C `traceparent` parser of the Go ingest service. */
module TraceParent {
  import opened Common

  /** Index of the first hyphen, or the length if there is none. */
  function Hyphen(s: string): (i: nat)
    ensures i <= |s| && '-' !in s[..i] && (i < |s| ==> s[i] == '-')
  {
    if s == "" || s[0] == '-' then 0
    else
      var i := 1 + Hyphen(s[1..]);
      assert s[..i] == [s[0]] + s[1..][..i - 1];
      i
  }

  /** strings.SplitN(s, "-", n): at most n parts, the last one unsplit. */
  function SplitN(s: string, n: nat): seq<string>
    requires n >= 1
    decreases |s|
  {
    if n == 1 || Hyphen(s) == |s| then [s] else [s[..Hyphen(s)]] + SplitN(s[Hyphen(s) + 1..], n - 1)
  }

  predicate LowerHex(c: char) { '0' <= c <= '9' || 'a' <= c <= 'f' }
  predicate AnyHex(c: char) { LowerHex(c) || 'A' <= c <= 'F' }

  function Digit(c: char): nat
    requires AnyHex(c)
  {
    if '0' <= c <= '9' then (c - '0') as int
    else if 'a' <= c <= 'f' then (c - 'a') as int + 10
    else (c - 'A') as int + 10
  }

  predicate AllLowerHex(s: string) { forall i :: 0 <= i < |s| ==> LowerHex(s[i]) }
  predicate AllHex(s: string) { forall i :: 0 <= i < |s| ==> AnyHex(s[i]) }

  function Value(s: string): nat
    requires AllHex(s)
  {
    if s == "" then 0 else 16 * Value(s[..|s| - 1]) + Digit(s[|s| - 1])
  }

  /** trace.TraceIDFromHex (width 32) and trace.SpanIDFromHex (width 16). */
  function IdFromHex(s: string, width: nat): Option<nat> {
    if |s| != width || !AllLowerHex(s) then None
    else
      assert AllHex(s);
      if Value(s) == 0 then None else Some(Value(s))
  }

  /** strconv.ParseUint(s, 16, 8). */
  function ParseUint8(s: string): Option<nat> {
    if s == "" || !AllHex(s) || Value(s) > 255 then None else Some(Value(s))
  }

  datatype SpanContext = SpanContext(traceId: nat, spanId: nat, flags: nat)

  function Parse(traceparent: string): Option<SpanContext> {
    var parts := SplitN(traceparent, 4);
    if |parts| != 4 then None
    else
      var traceId, spanId, flags := IdFromHex(parts[1], 32), IdFromHex(parts[2], 16), ParseUint8(parts[3]);
      if traceId == None || spanId == None || flags == None then None
      else Some(SpanContext(traceId.value, spanId.value, flags.value))
  }

  /** The remote span context of `ctx` after the call. */
  function Extract(ctx: Option<SpanContext>, traceparent: string): Option<SpanContext> {
    if Parse(traceparent) == None then ctx else Parse(traceparent)
  }

  // ---------------------------------------------------------------- the accepted language

  function Join(version: string, traceId: string, spanId: string, flags: string): string {
    version + "-" + (traceId + "-" + (spanId + "-" + flags))
  }

  predicate AllZero(s: string) { forall i :: 0 <= i < |s| ==> s[i] == '0' }

  ghost predicate WellFormed(version: string, traceId: string, spanId: string, flags: string) {
    && '-' !in version
    && |traceId| == 32 && AllLowerHex(traceId) && !AllZero(traceId)
    && |spanId| == 16 && AllLowerHex(spanId) && !AllZero(spanId)
    && flags != "" && AllHex(flags) && Value(flags) <= 255
  }

  lemma {:induction false} HyphenFirst(s: string, k: nat)
    requires k < |s| && s[k] == '-' && '-' !in s[..k]
    ensures Hyphen(s) == k
  {
    if k == 0 {
    } else {
      assert s[..k][0] == s[0] && s[1..][..k - 1] == s[..k][1..];
      HyphenFirst(s[1..], k - 1);
    }
  }

  lemma SplitHead(head: string, rest: string, n: nat)
    requires n >= 2 && '-' !in head
    ensures SplitN(head + "-" + rest, n) == [head] + SplitN(rest, n - 1)
  {
    var s := head + "-" + rest;
    assert s[..|head|] == head && s[|head|] == '-' && s[|head| + 1..] == rest;
    HyphenFirst(s, |head|);
  }

  lemma SplitTail(traceId: string, spanId: string, flags: string)
    requires '-' !in traceId && '-' !in spanId
    ensures SplitN(traceId + "-" + (spanId + "-" + flags), 3) == [traceId, spanId, flags]
  {
    var tail := spanId + "-" + flags;
    SplitHead(traceId, tail, 3);
    SplitHead(spanId, flags, 2);
    assert SplitN(tail, 2) == [spanId, flags];
  }

  lemma SplitVersion(version: string, traceId: string, spanId: string, flags: string)
    requires '-' !in version
    ensures SplitN(Join(version, traceId, spanId, flags), 4)
         == [version] + SplitN(traceId + "-" + (spanId + "-" + flags), 3)
  {
    var tail := traceId + "-" + (spanId + "-" + flags);
    SplitHead(version, tail, 4);
  }

  lemma SplitJoined(version: string, traceId: string, spanId: string, flags: string)
    requires '-' !in version && '-' !in traceId && '-' !in spanId
    ensures var parts := SplitN(Join(version, traceId, spanId, flags), 4);
            |parts| == 4 && parts[1] == traceId && parts[2] == spanId && parts[3] == flags
  {
    SplitVersion(version, traceId, spanId, flags);
    SplitTail(traceId, spanId, flags);
  }

  /** A split into `n` parts rejoins to the string, and only the last part can hold a hyphen. */
  lemma SplitStep(s: string, n: nat)
    requires n >= 2 && |SplitN(s, n)| >= 2
    ensures s == SplitN(s, n)[0] + "-" + s[Hyphen(s) + 1..] && '-' !in SplitN(s, n)[0]
    ensures SplitN(s, n)[1..] == SplitN(s[Hyphen(s) + 1..], n - 1)
  {
  }

  lemma SplitRejoins(s: string)
    requires |SplitN(s, 4)| == 4
    ensures var p := SplitN(s, 4);
            s == Join(p[0], p[1], p[2], p[3]) && '-' !in p[0] && '-' !in p[1] && '-' !in p[2]
  {
    SplitStep(s, 4);
    var s1 := s[Hyphen(s) + 1..];
    SplitStep(s1, 3);
    var s2 := s1[Hyphen(s1) + 1..];
    SplitStep(s2, 2);
    var s3 := s2[Hyphen(s2) + 1..];
    assert SplitN(s3, 1) == [s3];
    assert SplitN(s, 4)[3] == SplitN(s, 4)[1..][2] == SplitN(s1, 3)[1..][1] == SplitN(s2, 2)[1..][0] == s3;
    assert SplitN(s, 4)[2] == SplitN(s, 4)[1..][1] == SplitN(s1, 3)[1..][0] == SplitN(s2, 2)[0];
    assert SplitN(s, 4)[1] == SplitN(s, 4)[1..][0] == SplitN(s1, 3)[0];
  }

  lemma {:induction false} ZeroValue(s: string)
    requires AllHex(s)
    ensures Value(s) == 0 <==> AllZero(s)
  {
    if s == "" {
    } else {
      ZeroValue(s[..|s| - 1]);
      assert forall i :: 0 <= i < |s| - 1 ==> s[..|s| - 1][i] == s[i];
      assert Digit(s[|s| - 1]) == 0 <==> s[|s| - 1] == '0';
    }
  }

  lemma NoHyphen(s: string)
    requires AllHex(s)
    ensures '-' !in s
  {
  }

  lemma ParseJoined(version: string, traceId: string, spanId: string, flags: string)
    requires WellFormed(version, traceId, spanId, flags)
    ensures AllHex(traceId) && AllHex(spanId)
    ensures Parse(Join(version, traceId, spanId, flags))
         == Some(SpanContext(Value(traceId), Value(spanId), Value(flags)))
  {
    NoHyphen(traceId);
    NoHyphen(spanId);
    SplitJoined(version, traceId, spanId, flags);
    ZeroValue(traceId);
    ZeroValue(spanId);
  }

  /** Exactly these strings are accepted: a version without hyphens, 32 and 16 lower-case hexadecimal
      digits that are not all zero, and non-empty hexadecimal flags of value at most 255. */
  lemma AcceptedIff(s: string)
    ensures Parse(s).Some? <==>
            exists version, traceId, spanId, flags ::
              WellFormed(version, traceId, spanId, flags) && s == Join(version, traceId, spanId, flags)
  {
    if Parse(s).Some? {
      SplitRejoins(s);
      var p := SplitN(s, 4);
      ZeroValue(p[1]);
      ZeroValue(p[2]);
      assert WellFormed(p[0], p[1], p[2], p[3]);
    }
    if version, traceId, spanId, flags :|
         WellFormed(version, traceId, spanId, flags) && s == Join(version, traceId, spanId, flags) {
      ParseJoined(version, traceId, spanId, flags);
    }
  }

  /** The span context that a header in four well-formed parts stands for. */
  ghost predicate Means(s: string, c: SpanContext) {
    exists version, traceId, spanId, flags ::
      && WellFormed(version, traceId, spanId, flags) && s == Join(version, traceId, spanId, flags)
      && AllHex(traceId) && AllHex(spanId)
      && c == SpanContext(Value(traceId), Value(spanId), Value(flags))
  }

  /** A header replaces the context by what it stands for, and one that stands for nothing leaves it alone. */
  lemma ExtractIff(ctx: Option<SpanContext>, s: string)
    ensures forall c :: Means(s, c) ==> Extract(ctx, s) == Some(c)
    ensures (forall c :: !Means(s, c)) ==> Extract(ctx, s) == ctx
  {
    forall c | Means(s, c) ensures Extract(ctx, s) == Some(c) {
      var version, traceId, spanId, flags :|
        && WellFormed(version, traceId, spanId, flags) && s == Join(version, traceId, spanId, flags)
        && AllHex(traceId) && AllHex(spanId)
        && c == SpanContext(Value(traceId), Value(spanId), Value(flags));
      ParseJoined(version, traceId, spanId, flags);
    }
    if Parse(s).Some? {
      AcceptedIff(s);
      var version, traceId, spanId, flags :|
        WellFormed(version, traceId, spanId, flags) && s == Join(version, traceId, spanId, flags);
      ParseJoined(version, traceId, spanId, flags);
      assert Means(s, Parse(s).value);
    }
  }

  /** Hexadecimal digits, and what each is worth: letters count from ten in either case. */
  lemma DigitsAre(c: char)
    ensures LowerHex(c) <==> c in "0123456789abcdef"
    ensures AnyHex(c) <==> c in "0123456789abcdefABCDEF"
    ensures forall d: nat :: d < 16 && c == "0123456789abcdef"[d] ==> AnyHex(c) && Digit(c) == d
    ensures forall d: nat :: 10 <= d < 16 && c == "0123456789ABCDEF"[d] ==> AnyHex(c) && Digit(c) == d
  {
    var lower, all := "0123456789abcdef", "0123456789abcdefABCDEF";
    if '0' <= c <= '9' {
      assert c == lower[c as int - 48] == all[c as int - 48];
    } else if 'a' <= c <= 'f' {
      assert c == lower[c as int - 87] == all[c as int - 87];
    } else if 'A' <= c <= 'F' {
      assert c == all[c as int - 49];
    }
  }

  function Hyphens(s: string): nat {
    if s == "" then 0 else Hyphens(s[..|s| - 1]) + if s[|s| - 1] == '-' then 1 else 0
  }

  lemma {:induction false} HyphensAppend(a: string, b: string)
    ensures Hyphens(a + b) == Hyphens(a) + Hyphens(b)
  {
    if b == "" {
      assert a + b == a;
    } else {
      HyphensAppend(a, b[..|b| - 1]);
      assert (a + b)[..|a + b| - 1] == a + b[..|b| - 1];
    }
  }

  lemma {:induction false} NoHyphens(s: string)
    requires '-' !in s
    ensures Hyphens(s) == 0
  {
    if s == "" {
    } else {
      NoHyphens(s[..|s| - 1]);
    }
  }

  /** Any other number of segments than four leaves the context as it was. */
  lemma OtherSegmentsRejected(ctx: Option<SpanContext>, s: string)
    requires Hyphens(s) != 3
    ensures Extract(ctx, s) == ctx
  {
    AcceptedIff(s);
    if Parse(s).Some? {
      var v, t, p, f :| WellFormed(v, t, p, f) && s == Join(v, t, p, f);
      HyphensOfJoin(v, t, p, f);
    }
  }

  lemma HyphensOfJoin(v: string, t: string, p: string, f: string)
    requires WellFormed(v, t, p, f)
    ensures Hyphens(Join(v, t, p, f)) == 3
  {
    NoHyphen(t);
    NoHyphen(p);
    NoHyphen(f);
    NoHyphens(f);
    OneMoreHyphen(v, t + "-" + (p + "-" + f));
    OneMoreHyphen(t, p + "-" + f);
    OneMoreHyphen(p, f);
  }

  lemma OneMoreHyphen(head: string, rest: string)
    requires '-' !in head
    ensures Hyphens(head + "-" + rest) == 1 + Hyphens(rest)
  {
    NoHyphens(head);
    assert "-"[..0] == "" && Hyphens("-") == 1;
    HyphensAppend(head, "-");
    HyphensAppend(head + "-", rest);
  }

  // ---------------------------------------------------------------- round trip

  function Pow16(n: nat): nat { if n == 0 then 1 else 16 * Pow16(n - 1) }

  function HexDigit(d: nat): (c: char)
    requires d < 16
    ensures LowerHex(c) && Digit(c) == d
  {
    if d < 10 then '0' + d as char else 'a' + (d - 10) as char
  }

  /** `n` in `width` lower-case digits. */
  function Hex(n: nat, width: nat): (s: string)
    ensures |s| == width && AllLowerHex(s)
  {
    if width == 0 then "" else Hex(n / 16, width - 1) + [HexDigit(n % 16)]
  }

  lemma {:induction false} HexValue(n: nat, width: nat)
    requires n < Pow16(width)
    ensures Value(Hex(n, width)) == n
  {
    if width == 0 {
    } else {
      HexValue(n / 16, width - 1);
      assert Hex(n, width)[..width - 1] == Hex(n / 16, width - 1);
    }
  }

  lemma NonZeroHex(n: nat, width: nat)
    requires 0 < n < Pow16(width)
    ensures Value(Hex(n, width)) == n && !AllZero(Hex(n, width))
  {
    HexValue(n, width);
    ZeroValue(Hex(n, width));
  }

  function Render(c: SpanContext): string {
    Join("00", Hex(c.traceId, 32), Hex(c.spanId, 16), Hex(c.flags, 2))
  }

  /** Every span context with non-zero ids survives being sent as a version-00 header, all 256 flag bytes
      included. */
  lemma RenderedParses(ctx: Option<SpanContext>, c: SpanContext)
    requires 0 < c.traceId < Pow16(32) && 0 < c.spanId < Pow16(16) && c.flags < 256
    ensures Extract(ctx, Render(c)) == Some(c)
  {
    RenderedWellFormed(c);
    ParseJoined("00", Hex(c.traceId, 32), Hex(c.spanId, 16), Hex(c.flags, 2));
  }

  lemma RenderedWellFormed(c: SpanContext)
    requires 0 < c.traceId < Pow16(32) && 0 < c.spanId < Pow16(16) && c.flags < 256
    ensures WellFormed("00", Hex(c.traceId, 32), Hex(c.spanId, 16), Hex(c.flags, 2))
    ensures Value(Hex(c.traceId, 32)) == c.traceId && Value(Hex(c.spanId, 16)) == c.spanId
    ensures Value(Hex(c.flags, 2)) == c.flags
  {
    NonZeroHex(c.traceId, 32);
    NonZeroHex(c.spanId, 16);
    FlagsHex(c.flags, 2);
  }

  lemma FlagsHex(flags: nat, width: nat)
    requires flags < 256 && width == 2
    ensures AllHex(Hex(flags, width)) && Hex(flags, width) != "" && Value(Hex(flags, width)) == flags
  {
    assert Pow16(width - 1) == 16;
    HexValue(flags, width);
  }
}
