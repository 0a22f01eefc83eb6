/**
 * `readDHParameters` and `writeDHParameters`: the reader gathers the trimmed lines from the BEGIN
 * line through the END line into one string, finds the Base64 text between the two markers with
 * the pattern `(-----BEGIN DH PARAMETERS-----)(.*)(-----END DH PARAMETERS-----)`, and reads the
 * first two integers of the sequence it decodes to; every failure is "invalid DH PARAMETERS".
 */
module PemDh {
  import opened Wrappers
  import opened Asn1
  import opened Text
  import opened PemLines
  import Base64

  /** `DHParameterSpec`: the prime and the base. */
  datatype DhParams = DhParams(p: int, g: int)

  /** The first and third groups of the pattern. */
  const DhBegin: string := BeginLine(DhParamsLabel)
  const DhEnd: string := EndLine(DhParamsLabel)

  /** The characters `java.util.regex` treats as line terminators, which `.` does not match. */
  predicate IsLineTerminator(c: char) {
    c == '\n' || c == '\r' || c == '\U{0085}' || c == '\U{2028}' || c == '\U{2029}'
  }

  /** A string `.*` can match. */
  predicate OnOneLine(s: string) {
    forall i :: 0 <= i < |s| ==> !IsLineTerminator(s[i])
  }

  /** The first line terminator at or after `i`, or `|s|`. */
  function LineEnd(s: string, i: nat): (t: nat)
    requires i <= |s|
    ensures i <= t <= |s|
    decreases |s| - i
  {
    if i == |s| || IsLineTerminator(s[i]) then i else LineEnd(s, i + 1)
  }

  /** `LineEnd` is the first line terminator: the text before it is on one line. */
  lemma {:induction false} LineEndMeaning(s: string, i: nat)
    requires i <= |s|
    ensures OnOneLine(s[i..LineEnd(s, i)])
    ensures LineEnd(s, i) < |s| ==> IsLineTerminator(s[LineEnd(s, i)])
    decreases |s| - i
  {
    if i < |s| && !IsLineTerminator(s[i]) {
      LineEndMeaning(s, i + 1);
      var t := LineEnd(s, i);
      assert forall j :: 0 < j < t - i ==> s[i..t][j] == s[i + 1..t][j - 1];
    }
  }

  /**
   * The pattern `(bm)(.*)(em)` matches with `bm` at `i` and `em` at `j`: the second group,
   * between them, is on one line.
   */
  predicate MatchAt(s: string, bm: string, em: string, i: nat, j: nat) {
    OccursAt(s, bm, i) && i + |bm| <= j && OccursAt(s, em, j) && OnOneLine(s[i + |bm|..j])
  }

  /**
   * `Matcher.find` from index `i` for the pattern `(bm)(.*)(em)`, giving where `bm` and `em`
   * start in the match: the leftmost start where `bm` occurs and an `em` follows on the same
   * line, with the greedy `.*` reaching the last such `em`.
   */
  function FindFrom(s: string, bm: string, em: string, i: nat): (r: Option<(nat, nat)>)
    ensures r.Some? ==> r.value.0 + |bm| <= r.value.1 <= |s|
    decreases |s| - i
  {
    if i + |bm| > |s| then None
    else if OccursAt(s, bm, i) then
      var st := i + |bm|;
      var e := LastIndexIn(s, em, st, LineEnd(s, st));
      if e >= 0 then Some((i, e)) else FindFrom(s, bm, em, i + 1)
    else FindFrom(s, bm, em, i + 1)
  }

  /** The END text holds no line terminator. */
  lemma EndOnOneLine()
    ensures OnOneLine(DhEnd)
  {
    assert OnOneLine(Bef) && OnOneLine("END ") && OnOneLine(DhParamsLabel) && OnOneLine(Aft);
    OnOneLineAppend(Bef, "END ");
    OnOneLineAppend(EndPrefix, DhParamsLabel);
    OnOneLineAppend(End(DhParamsLabel), Aft);
  }

  /** Two texts on one line make one line. */
  lemma OnOneLineAppend(a: string, b: string)
    requires OnOneLine(a) && OnOneLine(b)
    ensures OnOneLine(a + b)
  {
    forall k | 0 <= k < |a + b| ensures !IsLineTerminator((a + b)[k]) {
      if k >= |a| { assert (a + b)[k] == b[k - |a|]; }
    }
  }

  /** A slice of a string on one line is on one line. */
  lemma OnOneLineSlice(s: string, a: nat, b: nat, c: nat, d: nat)
    requires a <= c <= d <= b <= |s| && OnOneLine(s[a..b])
    ensures OnOneLine(s[c..d])
  {
    assert forall k :: 0 <= k < d - c ==> s[c..d][k] == s[a..b][k + c - a];
  }

  /** A line-free text followed by a line-free `em` holds no terminator through the `em`. */
  lemma NoTerminatorThrough(s: string, st: nat, j: nat, em: string)
    requires st <= j && OccursAt(s, em, j) && OnOneLine(s[st..j]) && OnOneLine(em)
    ensures forall k :: st <= k < j + |em| ==> !IsLineTerminator(s[k])
  {
    forall k | st <= k < j + |em| ensures !IsLineTerminator(s[k]) {
      if k < j {
        assert s[st..j][k - st] == s[k];
      } else {
        assert s[j..j + |em|][k - j] == s[k];
      }
    }
  }

  /**
   * The `em` texts that can end a match started at `i` are exactly the occurrences of `em` in
   * the line after `bm`.
   */
  lemma EndInLine(s: string, bm: string, em: string, i: nat, j: nat)
    requires OnOneLine(em) && OccursAt(s, bm, i) && i + |bm| <= j
    ensures MatchAt(s, bm, em, i, j) <==> (j + |em| <= LineEnd(s, i + |bm|) && OccursAt(s, em, j))
  {
    var st := i + |bm|;
    var t := LineEnd(s, st);
    LineEndMeaning(s, st);
    if MatchAt(s, bm, em, i, j) {
      NoTerminatorThrough(s, st, j, em);
    }
    if j + |em| <= t && OccursAt(s, em, j) {
      OnOneLineSlice(s, st, t, st, j);
    }
  }

  /** The last `em` on the line after `bm` ends the longest match from there. */
  lemma GreedyAt(s: string, bm: string, em: string, i: nat)
    requires OnOneLine(em) && OccursAt(s, bm, i)
    requires var st := i + |bm|; LastIndexIn(s, em, st, LineEnd(s, st)) >= 0
    ensures var st := i + |bm|; var e := LastIndexIn(s, em, st, LineEnd(s, st));
      MatchAt(s, bm, em, i, e) && forall j: nat :: MatchAt(s, bm, em, i, j) ==> j <= e
  {
    var st := i + |bm|;
    var t := LineEnd(s, st);
    var e := LastIndexIn(s, em, st, t);
    LastIndexInMeaning(s, em, st, t);
    EndInLine(s, bm, em, i, e);
    forall j: nat | MatchAt(s, bm, em, i, j) ensures j <= e {
      EndInLine(s, bm, em, i, j);
    }
  }

  /** Without `bm` at `i`, or without an `em` on the line after it, no match starts at `i`. */
  lemma NoMatchAt(s: string, bm: string, em: string, i: nat)
    requires OnOneLine(em) && i + |bm| <= |s|
    requires var st := i + |bm|;
      !OccursAt(s, bm, i) || LastIndexIn(s, em, st, LineEnd(s, st)) < 0
    ensures forall j: nat :: !MatchAt(s, bm, em, i, j)
  {
    var st := i + |bm|;
    LastIndexInMeaning(s, em, st, LineEnd(s, st));
    forall j: nat ensures !MatchAt(s, bm, em, i, j) {
      if OccursAt(s, bm, i) && st <= j {
        EndInLine(s, bm, em, i, j);
      }
    }
  }

  /** No match starts at or after `i`. */
  ghost predicate NoMatchFrom(s: string, bm: string, em: string, i: nat) {
    forall i': nat, j: nat :: i <= i' ==> !MatchAt(s, bm, em, i', j)
  }

  /**
   * The leftmost, greedy match from `i`: `bm` at `a`, `em` at `b`, no match starting before
   * `a`, and no match from `a` ending later.
   */
  ghost predicate LeftmostLongest(s: string, bm: string, em: string, i: nat, a: nat, b: nat) {
    i <= a && MatchAt(s, bm, em, a, b) &&
    (forall i': nat, j: nat :: i <= i' < a ==> !MatchAt(s, bm, em, i', j)) &&
    (forall j: nat :: MatchAt(s, bm, em, a, j) ==> j <= b)
  }

  /**
   * `FindFrom` is the leftmost, greedy match: what it finds is the leftmost-longest match from
   * `i`, and it finds nothing only when no match starts at or after `i`.
   */
  lemma {:induction false} FindFromMeaning(s: string, bm: string, em: string, i: nat)
    requires OnOneLine(em)
    ensures var r := FindFrom(s, bm, em, i);
      (r.Some? ==> LeftmostLongest(s, bm, em, i, r.value.0, r.value.1)) &&
      (r.None? ==> NoMatchFrom(s, bm, em, i))
    decreases |s| - i
  {
    if i + |bm| > |s| {
      assert NoMatchFrom(s, bm, em, i);
    } else {
      var st := i + |bm|;
      if OccursAt(s, bm, i) && LastIndexIn(s, em, st, LineEnd(s, st)) >= 0 {
        FindHere(s, bm, em, i);
      } else {
        FindFromMeaning(s, bm, em, i + 1);
        FindSkip(s, bm, em, i);
      }
    }
  }

  /** A match found at `i` is the leftmost-longest one from `i`. */
  lemma FindHere(s: string, bm: string, em: string, i: nat)
    requires OnOneLine(em) && OccursAt(s, bm, i)
    requires var st := i + |bm|; LastIndexIn(s, em, st, LineEnd(s, st)) >= 0
    ensures FindFrom(s, bm, em, i).Some? &&
      LeftmostLongest(s, bm, em, i, FindFrom(s, bm, em, i).value.0, FindFrom(s, bm, em, i).value.1)
  {
    var st := i + |bm|;
    var e := LastIndexIn(s, em, st, LineEnd(s, st));
    assert FindFrom(s, bm, em, i) == Some((i, e));
    GreedyAt(s, bm, em, i);
  }

  /** Where no match starts at `i`, the search goes on from `i + 1`. */
  lemma FindSkip(s: string, bm: string, em: string, i: nat)
    requires OnOneLine(em) && i + |bm| <= |s|
    requires var st := i + |bm|;
      !OccursAt(s, bm, i) || LastIndexIn(s, em, st, LineEnd(s, st)) < 0
    requires var r := FindFrom(s, bm, em, i + 1);
      (r.Some? ==> LeftmostLongest(s, bm, em, i + 1, r.value.0, r.value.1)) &&
      (r.None? ==> NoMatchFrom(s, bm, em, i + 1))
    ensures var r := FindFrom(s, bm, em, i);
      (r.Some? ==> LeftmostLongest(s, bm, em, i, r.value.0, r.value.1)) &&
      (r.None? ==> NoMatchFrom(s, bm, em, i))
  {
    var r := FindFrom(s, bm, em, i + 1);
    assert FindFrom(s, bm, em, i) == r;
    NoMatchAt(s, bm, em, i);
    if r.Some? {
      LeftmostFromNext(s, bm, em, i, r.value.0, r.value.1);
    } else {
      assert NoMatchFrom(s, bm, em, i);
    }
  }

  /** A leftmost-longest match from `i + 1` is one from `i` when no match starts at `i`. */
  lemma LeftmostFromNext(s: string, bm: string, em: string, i: nat, a: nat, b: nat)
    requires LeftmostLongest(s, bm, em, i + 1, a, b)
    requires forall j: nat :: !MatchAt(s, bm, em, i, j)
    ensures LeftmostLongest(s, bm, em, i, a, b)
  {
  }

  /**
   * What the loops of `readDHParameters` gather: from the first line holding the BEGIN marker,
   * the trimmed lines through the first one, from there on, holding the END marker, or through
   * the last line; nothing when no line holds the BEGIN marker.
   */
  function DhBufferOf(lines: seq<string>): string {
    var k := FirstWith(lines, 0, Begin(DhParamsLabel));
    if k == |lines| then ""
    else
      var e := FirstWith(lines, k, End(DhParamsLabel));
      TrimmedConcat(lines[k..if e == |lines| then e else e + 1])
  }

  /** The two loops: the search for the BEGIN line, then the do-while over the body. */
  method GatherDh(lines: seq<string>) returns (buf: string)
    ensures buf == DhBufferOf(lines)
  {
    var beginMarker, endMarker := Begin(DhParamsLabel), End(DhParamsLabel);
    buf := "";
    var k := 0;
    while k < |lines| && IndexFrom(lines[k], beginMarker, 0) < 0
      invariant k <= |lines|
      invariant FirstWith(lines, 0, beginMarker) == FirstWith(lines, k, beginMarker)
    {
      IndexOfContains(lines[k], beginMarker);
      k := k + 1;
    }
    if k < |lines| {
      IndexOfContains(lines[k], beginMarker);
      assert k == FirstWith(lines, 0, beginMarker);
      var start := k;
      // the do-while: the body runs once, then again for every further line read
      TrimmedConcatStep(lines, start, k);
      buf := buf + Trim(lines[k]);
      while IndexFrom(lines[k], endMarker, 0) < 0 && k + 1 < |lines|
        invariant start <= k < |lines|
        invariant buf == TrimmedConcat(lines[start..k + 1])
        invariant FirstWith(lines, start, endMarker) == FirstWith(lines, k, endMarker)
      {
        IndexOfContains(lines[k], endMarker);
        k := k + 1;
        TrimmedConcatStep(lines, start, k);
        buf := buf + Trim(lines[k]);
      }
      IndexOfContains(lines[k], endMarker);
      if !Contains(lines[k], endMarker) {
        assert FirstWith(lines, k, endMarker) == |lines|;
      }
    }
  }

  /** The parameters in the gathered text, or "invalid DH PARAMETERS". */
  function DhParamsOf(der: DerCodec, buf: string): Result<DhParams, PemError> {
    match FindFrom(buf, DhBegin, DhEnd, 0)
    case None => Err(InvalidDhParameters)
    case Some((a, b)) =>
      match Base64.Decode(buf[a + |DhBegin|..b])
      case None => Err(InvalidDhParameters)
      case Some(bytes) =>
        match der.readObject(bytes)
        case Parsed(Seq(items), _) =>
          if |items| >= 2 && items[0].Int? && items[1].Int? then Ok(DhParams(items[0].value, items[1].value))
          else Err(InvalidDhParameters)
        case _ => Err(InvalidDhParameters)
  }

  /** `readDHParameters`. */
  function ReadDhParametersOf(der: DerCodec, lines: seq<string>): Result<DhParams, PemError> {
    DhParamsOf(der, DhBufferOf(lines))
  }

  /** `readDHParameters`, gathering the text line by line. */
  method ReadDhParameters(der: DerCodec, lines: seq<string>) returns (r: Result<DhParams, PemError>)
    ensures r == ReadDhParametersOf(der, lines)
  {
    var buf := GatherDh(lines);
    r := DhParamsOf(der, buf);
  }

  /** The sequence `writeDHParameters` encodes: the prime and the base, each only when present. */
  function DhLayout(p: Option<int>, g: Option<int>): Node {
    Seq((if p.Some? then [Int(p.value)] else []) + (if g.Some? then [Int(g.value)] else []))
  }

  /** `writeDHParameters`. */
  function WriteDhParameters(der: DerCodec, p: Option<int>, g: Option<int>): Written {
    Armored(DhParamsLabel, der.encode(DhLayout(p, g)))
  }

  /** Input without a BEGIN line is "invalid DH PARAMETERS". */
  lemma NoBeginInvalid(der: DerCodec, lines: seq<string>)
    requires forall j :: 0 <= j < |lines| ==> !Contains(lines[j], Begin(DhParamsLabel))
    ensures ReadDhParametersOf(der, lines) == Err(InvalidDhParameters)
  {
    FirstWithAt(lines, 0, Begin(DhParamsLabel), |lines|);
  }

  /** A BEGIN line holds no END marker. */
  lemma BeginLineNoEnd(name: string)
    requires IsLabel(name)
    ensures !Contains(BeginLine(name), End(name))
  {
    var m, q := "BEGIN " + name, "END " + name;
    assert DashFree(m) by {
      forall i | 0 <= i < |m| ensures m[i] != '-' {
        if i >= 6 { assert m[i] == name[i - 6]; }
      }
    }
    assert DashFree(q) by {
      forall i | 0 <= i < |q| ensures q[i] != '-' {
        if i >= 4 { assert q[i] == name[i - 4]; }
      }
    }
    assert BeginLine(name) == Bef + m + Aft;
    assert End(name) == Bef + q;
    DashedContains(m, q);
    assert q[0] != m[0];
  }

  /** In an armored DH text, the BEGIN marker is on the first line and the END marker first on the last. */
  lemma ArmoredMarkers(der: seq<byte>)
    ensures var lines := Armored(DhParamsLabel, der).lines;
      FirstWith(lines, 0, Begin(DhParamsLabel)) == 0 &&
      FirstWith(lines, 0, End(DhParamsLabel)) == |lines| - 1
  {
    var name := DhParamsLabel;
    var text := Base64.Encode(der);
    var w := Wrap64(text);
    var lines := Armored(name, der).lines;
    assert IsLabel(name);
    BeginLineHolds(name, name);
    FirstWithAt(lines, 0, Begin(name), 0);
    EncodingIsBase64Line(der);
    Wrap64Chars(text);
    BeginLineNoEnd(name);
    forall j | 1 <= j < |lines| - 1 ensures !Contains(lines[j], End(name)) {
      assert lines[j] == w[j - 1];
      Base64LineFacts(w[j - 1], name);
    }
    EndLineHolds(name, name);
    FirstWithAt(lines, 0, End(name), |lines| - 1);
  }

  /** The text gathered from an armored DH text is its BEGIN line, Base64 text and END line. */
  lemma ArmoredBuffer(der: seq<byte>)
    ensures DhBufferOf(Armored(DhParamsLabel, der).lines) == DhBegin + Base64.Encode(der) + DhEnd
  {
    var text := Base64.Encode(der);
    var w := Wrap64(text);
    var lines := Armored(DhParamsLabel, der).lines;
    ArmoredMarkers(der);
    assert lines[0..|lines|] == [DhBegin] + (w + [DhEnd]);
    EncodingIsBase64Line(der);
    Wrap64Chars(text);
    Wrap64Shape(text);
    TrimmedConcatSnoc(w, DhEnd);
    TrimmedConcatOfBase64(w, DhParamsLabel);
    TrimDashed(DhBegin);
    TrimDashed(DhEnd);
  }

  /** A line that starts and ends with a dash is left as it is by `trim`. */
  lemma TrimDashed(s: string)
    requires |s| > 0 && s[0] == '-' && s[|s| - 1] == '-'
    ensures Trim(s) == s
  {
    assert TrimStart(s) == s;
  }

  /** Base64 text holds no line terminator. */
  lemma Base64OnOneLine(t: string)
    requires IsBase64Line(t)
    ensures OnOneLine(t)
  {
  }

  /** Past `bm`, a text `bm + text + em` with `text` and `em` on one line is one line. */
  lemma WholeLine(bm: string, text: string, em: string)
    requires OnOneLine(text) && OnOneLine(em)
    ensures var s := bm + text + em; LineEnd(s, |bm|) == |s|
  {
    var s := bm + text + em;
    var v := text + em;
    assert s[|bm|..] == v;
    LineEndMeaning(s, |bm|);
    assert OnOneLine(v) by {
      forall k | 0 <= k < |v| ensures !IsLineTerminator(v[k]) {
        if k >= |text| { assert v[k] == em[k - |text|]; } else { assert v[k] == text[k]; }
      }
    }
  }

  /** In `bm + text + em`, the last `em` after `bm` is the final one. */
  lemma LastAfter(bm: string, text: string, em: string)
    ensures var s := bm + text + em;
      LastIndexIn(s, em, |bm|, |s|) == |bm| + |text|
  {
    var s := bm + text + em;
    assert s[|bm| + |text|..|s|] == em;
    assert OccursAt(s, em, |bm| + |text|);
  }

  /** In `bm + text + em` with `text` and `em` on one line, the match spans the whole text. */
  lemma FindWhole(bm: string, text: string, em: string)
    requires OnOneLine(text) && OnOneLine(em)
    ensures FindFrom(bm + text + em, bm, em, 0) == Some((0, |bm| + |text|))
  {
    var s := bm + text + em;
    assert OccursAt(s, bm, 0) by {
      assert s[0..|bm|] == bm;
    }
    WholeLine(bm, text, em);
    LastAfter(bm, text, em);
  }

  /** In the gathered armored text, the match spans the whole text. */
  lemma FindArmored(text: string)
    requires IsBase64Line(text)
    ensures FindFrom(DhBegin + text + DhEnd, DhBegin, DhEnd, 0) == Some((0, |DhBegin| + |text|))
  {
    Base64OnOneLine(text);
    EndOnOneLine();
    FindWhole(DhBegin, text, DhEnd);
  }

  /**
   * Reading what `writeDHParameters` wrote gives back the prime and the base when both were
   * present, and "invalid DH PARAMETERS" when either was missing.
   */
  lemma DhRoundTrip(der: DerCodec, p: Option<int>, g: Option<int>)
    requires Sound(der)
    ensures ReadDhParametersOf(der, WriteDhParameters(der, p, g).lines) ==
      if p.Some? && g.Some? then Ok(DhParams(p.value, g.value)) else Err(InvalidDhParameters)
  {
    var bytes := der.encode(DhLayout(p, g));
    var text := Base64.Encode(bytes);
    ArmoredBuffer(bytes);
    EncodingIsBase64Line(bytes);
    FindArmored(text);
    var s := DhBegin + text + DhEnd;
    assert s[|DhBegin|..|DhBegin| + |text|] == text;
    Base64.DecodeEncode(bytes);
    ReadSingle(der, DhLayout(p, g));
  }
}
