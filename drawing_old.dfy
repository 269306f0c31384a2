/**
  * The ASS drawing-command reader of src/drawing_old.rs: `strtod` scans a
  * number at the front of the input, `tokenize_drawing` turns the command
  * text into (command, point) tokens, and `parse_drawing` assembles the
  * tokens into line and cubic segments, closing each shape with a line
  * back to its start, while widening a bounding box over every point.
  *
  * Text is a sequence of bytes. Turning the scanned bytes into a floating
  * point number (`str::parse::<f64>`) and that number into 1/64 units
  * (`double_to_d6`) are not modelled: they are the parameters `parse` and
  * `toD6`, with `F` standing for `f64`.
  */
module DrawingOld {
  import opened Ints
  import opened Wrappers
  import AssOutline

  type Vector = AssOutline.Vector
  type Bounds = AssOutline.Bounds
  type Rect = AssOutline.Rect
  type Segment = AssOutline.Segment

  const SPACE: U8 := 0x20
  const MINUS: U8 := 0x2D
  const DOT: U8 := 0x2E

  predicate IsDigit(c: U8)
  {
    0x30 <= c <= 0x39
  }

  // ---------------------------------------------------------------------
  // strtod
  // ---------------------------------------------------------------------

  /**
    * The end of the scan `strtod` makes over `s` from index `i`, having
    * already seen a `.` or not: digits, a `-` only at index 0, and one `.`.
    */
  function ScanEnd(s: seq<U8>, i: nat, seenDot: bool): (n: nat)
    requires i <= |s|
    ensures i <= n <= |s|
    decreases |s| - i
  {
    if i == |s| then i
    else if IsDigit(s[i]) then ScanEnd(s, i + 1, seenDot)
    else if s[i] == MINUS && i == 0 then ScanEnd(s, i + 1, seenDot)
    else if s[i] == DOT && !seenDot then ScanEnd(s, i + 1, true)
    else i
  }

  /** A byte string made only of digits, a leading `-` and at most one `.`. */
  predicate NumberShaped(t: seq<U8>)
  {
    (forall k :: 0 <= k < |t| ==> IsDigit(t[k]) || (k == 0 && t[k] == MINUS) || t[k] == DOT)
    && (forall j, k :: 0 <= j < k < |t| && t[j] == DOT ==> t[k] != DOT)
  }

  predicate HasDot(t: seq<U8>)
  {
    exists k :: 0 <= k < |t| && t[k] == DOT
  }

  /**
    * `strtod` scans the longest number-shaped prefix: the prefix is
    * number-shaped and one more byte would make it not so.
    */
  lemma ScanIsLongestNumber(s: seq<U8>)
    ensures var n := ScanEnd(s, 0, false);
      NumberShaped(s[..n]) && (n < |s| ==> !NumberShaped(s[..n + 1]))
  {
    ScanFrom(s, 0, false);
  }

  lemma {:induction false} ScanFrom(s: seq<U8>, i: nat, seenDot: bool)
    requires i <= |s|
    requires NumberShaped(s[..i]) && (seenDot <==> HasDot(s[..i]))
    ensures var n := ScanEnd(s, i, seenDot);
      NumberShaped(s[..n]) && (n < |s| ==> !NumberShaped(s[..n + 1]))
    decreases |s| - i
  {
    if i < |s| {
      var t := s[..i + 1];
      assert s[..i] == t[..i];
      if IsDigit(s[i]) || (s[i] == MINUS && i == 0) {
        assert HasDot(t) ==> HasDot(s[..i]);
        ScanFrom(s, i + 1, seenDot);
      } else if s[i] == DOT && !seenDot {
        assert HasDot(t) by { assert t[i] == DOT; }
        ScanFrom(s, i + 1, true);
      } else if s[i] == DOT {
        var j :| 0 <= j < i && s[..i][j] == DOT;
        assert t[j] == DOT && t[i] == DOT;
      } else {
        assert !(IsDigit(t[i]) || (i == 0 && t[i] == MINUS) || t[i] == DOT);
      }
    }
  }

  /**
    * What `strtod` does at index `pos` of `text`: on success the parsed
    * value and the index just past the scanned prefix, on failure nothing
    * (the caller's slice is left where it was).
    */
  function StrtodSpec<F>(text: seq<U8>, pos: nat, parse: seq<U8> -> Option<F>): Option<(F, nat)>
    requires pos <= |text|
  {
    var n := ScanEnd(text[pos..], 0, false);
    match parse(text[pos..pos + n])
    case None => None
    case Some(v) => Some((v, pos + n))
  }

  /**
    * A success moves forward over exactly the scanned number; an empty scan
    * never succeeds, because the empty string is not a number.
    */
  lemma StrtodAdvances<F>(text: seq<U8>, pos: nat, parse: seq<U8> -> Option<F>)
    requires pos <= |text| && parse([]) == None
    ensures var r := StrtodSpec(text, pos, parse);
      r.Some? ==>
        (pos < r.value.1 <= |text|
         && r.value.1 == pos + ScanEnd(text[pos..], 0, false)
         && NumberShaped(text[pos..r.value.1])
         && Some(r.value.0) == parse(text[pos..r.value.1]))
  {
    var s := text[pos..];
    var n := ScanEnd(s, 0, false);
    ScanIsLongestNumber(s);
    assert s[..n] == text[pos..pos + n];
  }

  /** `strtod`, the loop over the scan index `i`. */
  method Strtod<F>(text: seq<U8>, pos: nat, parse: seq<U8> -> Option<F>) returns (r: Option<(F, nat)>)
    requires pos <= |text|
    ensures r == StrtodSpec(text, pos, parse)
  {
    var p := text[pos..];
    var i := 0;
    var seenDot := false;
    while i < |p|
      invariant i <= |p|
      invariant ScanEnd(p, i, seenDot) == ScanEnd(p, 0, false)
      decreases |p| - i
    {
      var c := p[i];
      if IsDigit(c) {
        i := i + 1;
      } else if c == MINUS && i == 0 {
        i := i + 1;
      } else if c == DOT && !seenDot {
        i := i + 1;
        seenDot := true;
      } else {
        break;
      }
    }
    assert p[..i] == text[pos..pos + i];
    var n := parse(p[..i]);
    if n.Some? {
      r := Some((n.value, pos + i));
    } else {
      r := None;
    }
  }

  // ---------------------------------------------------------------------
  // tokenize_drawing
  // ---------------------------------------------------------------------

  const LETTER_C: U8 := 0x63

  /** The drawing commands the reader knows; `q`, `p` and `c` yield no token type. */
  datatype TokenType = Move | MoveNc | Line | CubicBezier | BSpline

  datatype DrawingToken = DrawingToken(tokenType: TokenType, point: Vector)

  /** How many coordinates of the pending point have been read. */
  datatype CoordStatus = NoCoord | GotX | GotXY

  /** The variables of the tokenizer loop; `pos` is where the slice `p` starts. */
  datatype TokState = TokState(
    pos: nat,
    tokenType: Option<TokenType>,
    isSet: CoordStatus,
    point: Vector,
    tokens: seq<DrawingToken>,
    splineStart: Option<nat>)
  {
    /** `spline_start` always indexes a token. */
    predicate Valid()
    {
      splineStart.Some? ==> splineStart.value < |tokens|
    }
  }

  /** The loop state before the first byte. */
  function TokInit(): TokState
  {
    TokState(0, None, NoCoord, AssOutline.Vector(0, 0), [], None)
  }

  /** The token type a command letter selects; any other byte keeps the current one. */
  function LetterCommand(c: U8, current: Option<TokenType>): (r: Option<TokenType>)
    ensures c !in {0x6D, 0x6E, 0x6C, 0x62, 0x73} ==> r == current
    ensures c in {0x6D, 0x6E, 0x6C, 0x62, 0x73} ==> r.Some?
  {
    if c == 0x6D then Some(Move)          // 'm'
    else if c == 0x6E then Some(MoveNc)   // 'n'
    else if c == 0x6C then Some(Line)     // 'l'
    else if c == 0x62 then Some(CubicBezier) // 'b'
    else if c == 0x73 then Some(BSpline)  // 's'
    else current
  }

  /**
    * The test before `c` closes a B-spline: the two tokens from `start` on
    * are B-spline tokens, indices taken modulo the number of tokens.
    */
  predicate ShouldFinishSpline(tokens: seq<DrawingToken>, start: nat)
    requires |tokens| > 0
  {
    tokens[start % |tokens|].tokenType == BSpline
    && tokens[(start + 1) % |tokens|].tokenType == BSpline
  }

  /**
    * `n` rounds of: push a B-spline token at the point of token `start`,
    * then advance `start`. A round may copy a token pushed by an earlier one.
    */
  function CopySpline(tokens: seq<DrawingToken>, start: nat, n: nat): (r: (seq<DrawingToken>, nat))
    requires start < |tokens|
    ensures |r.0| == |tokens| + n && r.1 == start + n && r.1 < |r.0|
    ensures r.0[..|tokens|] == tokens
    decreases n
  {
    if n == 0 then (tokens, start)
    else
      var r := CopySpline(tokens + [DrawingToken(BSpline, tokens[start].point)], start + 1, n - 1);
      assert r.0[..|tokens|] == (r.0[..|tokens| + 1])[..|tokens|];
      r
  }

  /**
    * Each copied token is a B-spline token at the point of the token
    * `|tokens| - start` places before it: the token `start + k` names in
    * round `k`.
    */
  lemma {:induction false} CopySplineCopies(tokens: seq<DrawingToken>, start: nat, n: nat)
    requires start < |tokens|
    ensures var r := CopySpline(tokens, start, n);
      forall k :: |tokens| <= k < |tokens| + n ==>
        r.0[k] == DrawingToken(BSpline, r.0[k - (|tokens| - start)].point)
    decreases n
  {
    if n > 0 {
      var t1 := tokens + [DrawingToken(BSpline, tokens[start].point)];
      CopySplineCopies(t1, start + 1, n - 1);
      var r := CopySpline(tokens, start, n);
      assert r == CopySpline(t1, start + 1, n - 1);
      assert r.0[..|t1|] == t1;
      assert r.0[|tokens|] == t1[|tokens|];
      assert r.0[start] == t1[start];
      assert |t1| - (start + 1) == |tokens| - start;
      forall k | |tokens| <= k < |tokens| + n
        ensures r.0[k] == DrawingToken(BSpline, r.0[k - (|tokens| - start)].point)
      {
        if k == |tokens| {
          assert k - (|tokens| - start) == start;
        }
      }
    }
  }

  /** Whether this step reads a coordinate: the two `strtod` branches. */
  predicate ReadsCoord<F>(text: seq<U8>, parse: seq<U8> -> Option<F>, st: TokState)
    requires st.pos < |text|
  {
    text[st.pos] != SPACE
    && !(text[st.pos] == LETTER_C && st.splineStart.Some?)
    && (st.isSet == NoCoord || st.isSet == GotX)
    && StrtodSpec(text, st.pos, parse).Some?
  }

  /**
    * The body of the loop, up to the push check: the `c` branch, the two
    * coordinate branches and the command-letter branch; a step that reads
    * no coordinate forgets a lone `x`.
    */
  function TokBranch<F>(text: seq<U8>, parse: seq<U8> -> Option<F>, toD6: F -> I32, st: TokState): (r: TokState)
    requires st.pos < |text| && text[st.pos] != SPACE && st.Valid()
    requires parse([]) == None
    ensures st.pos < r.pos <= |text| && r.Valid()
    ensures |st.tokens| <= |r.tokens| && r.tokens[..|st.tokens|] == st.tokens
  {
    StrtodAdvances(text, st.pos, parse);
    if text[st.pos] == LETTER_C && st.splineStart.Some? then
      var start := st.splineStart.value;
      var copied := if ShouldFinishSpline(st.tokens, start) then CopySpline(st.tokens, start, 3) else (st.tokens, start);
      st.(pos := st.pos + 1, tokens := copied.0, splineStart := Some(copied.1), isSet := NoCoord)
    else if ReadsCoord(text, parse, st) then
      var (v, end) := StrtodSpec(text, st.pos, parse).value;
      if st.isSet == NoCoord then
        st.(pos := end, point := st.point.(x := toD6(v)), isSet := GotX)
      else
        st.(pos := end, point := st.point.(y := toD6(v)), isSet := GotXY)
    else
      st.(pos := st.pos + 1, tokenType := LetterCommand(text[st.pos], st.tokenType), isSet := NoCoord)
  }

  /**
    * The end of the loop body: with a command active and both coordinates
    * read, push a token and open a B-spline at it if none is open.
    */
  function EmitToken(st: TokState): (r: TokState)
    requires st.Valid()
    ensures r.Valid() && r.pos == st.pos
    ensures |st.tokens| <= |r.tokens| && r.tokens[..|st.tokens|] == st.tokens
  {
    if st.tokenType.Some? && st.isSet == GotXY then
      var tokens := st.tokens + [DrawingToken(st.tokenType.value, st.point)];
      var start := if st.tokenType.value == BSpline && st.splineStart.None? then Some(|tokens| - 1) else st.splineStart;
      st.(tokens := tokens, isSet := NoCoord, splineStart := start)
    else st
  }

  /** One turn of the `while p != []` loop; a space is skipped with `continue`. */
  function TokStep<F>(text: seq<U8>, parse: seq<U8> -> Option<F>, toD6: F -> I32, st: TokState): (r: TokState)
    requires st.pos < |text| && st.Valid()
    requires parse([]) == None
    ensures st.pos < r.pos <= |text| && r.Valid()
    ensures |st.tokens| <= |r.tokens| && r.tokens[..|st.tokens|] == st.tokens
  {
    if text[st.pos] == SPACE then st.(pos := st.pos + 1)
    else EmitToken(TokBranch(text, parse, toD6, st))
  }

  /** The loop run to the end of the text; every turn consumes at least one byte. */
  function TokRun<F>(text: seq<U8>, parse: seq<U8> -> Option<F>, toD6: F -> I32, st: TokState): (r: TokState)
    requires st.pos <= |text| && st.Valid()
    requires parse([]) == None
    ensures r.Valid() && r.pos == |text|
    ensures |st.tokens| <= |r.tokens| && r.tokens[..|st.tokens|] == st.tokens
    decreases |text| - st.pos
  {
    if st.pos == |text| then st
    else
      var next := TokStep(text, parse, toD6, st);
      var r := TokRun(text, parse, toD6, next);
      assert r.tokens[..|st.tokens|] == r.tokens[..|next.tokens|][..|st.tokens|];
      r
  }

  /** `tokenize_drawing` as a function of the text. */
  function Tokenize<F>(text: seq<U8>, parse: seq<U8> -> Option<F>, toD6: F -> I32): seq<DrawingToken>
    requires parse([]) == None
  {
    TokRun(text, parse, toD6, TokInit()).tokens
  }

  /**
    * Outside the `c` branch, a step pushes a token exactly when it reads the
    * `y` coordinate while a command is active; the token carries that
    * command and the point just completed.
    */
  lemma TokenNeedsXY<F>(text: seq<U8>, parse: seq<U8> -> Option<F>, toD6: F -> I32, st: TokState)
    requires st.pos < |text| && st.Valid() && parse([]) == None
    requires !(text[st.pos] == LETTER_C && st.splineStart.Some?)
    ensures var r := TokStep(text, parse, toD6, st);
      (r.tokens != st.tokens <==>
        ReadsCoord(text, parse, st) && st.isSet == GotX && st.tokenType.Some?)
      && (r.tokens != st.tokens ==>
        r.tokens == st.tokens + [DrawingToken(st.tokenType.value, r.point)]
        && r.point == st.point.(y := toD6(StrtodSpec(text, st.pos, parse).value.0))
        && r.isSet == NoCoord)
  {
  }

  /**
    * A step that is neither a space nor a coordinate forgets a lone `x`;
    * a byte that is no command letter changes nothing else.
    */
  lemma NonCoordinateResets<F>(text: seq<U8>, parse: seq<U8> -> Option<F>, toD6: F -> I32, st: TokState)
    requires st.pos < |text| && st.Valid() && parse([]) == None
    requires text[st.pos] != SPACE && !ReadsCoord(text, parse, st)
    ensures var r := TokStep(text, parse, toD6, st);
      r.isSet == NoCoord && r.point == st.point && r.pos == st.pos + 1
      && (text[st.pos] !in {0x6D, 0x6E, 0x6C, 0x62, 0x73, LETTER_C} ==>
        r == st.(pos := st.pos + 1, isSet := NoCoord))
  {
  }

  /**
    * `c` with a B-spline open: when the two tokens from `spline_start` are
    * B-spline tokens, push three B-spline tokens copying the points at
    * `spline_start`, `+ 1` and `+ 2` and move `spline_start` past them;
    * otherwise leave the tokens alone.
    */
  lemma SplineClose<F>(text: seq<U8>, parse: seq<U8> -> Option<F>, toD6: F -> I32, st: TokState)
    requires st.pos < |text| && st.Valid() && parse([]) == None
    requires text[st.pos] == LETTER_C && st.splineStart.Some?
    ensures var r := TokStep(text, parse, toD6, st);
      var start, n := st.splineStart.value, |st.tokens|;
      r.pos == st.pos + 1 && r.isSet == NoCoord && r.tokenType == st.tokenType
      && (ShouldFinishSpline(st.tokens, start) ==>
        |r.tokens| == n + 3 && r.tokens[..n] == st.tokens
        && r.tokens[n] == DrawingToken(BSpline, r.tokens[start].point)
        && r.tokens[n + 1] == DrawingToken(BSpline, r.tokens[start + 1].point)
        && r.tokens[n + 2] == DrawingToken(BSpline, r.tokens[start + 2].point)
        && r.splineStart == Some(start + 3))
      && (!ShouldFinishSpline(st.tokens, start) ==>
        r.tokens == st.tokens && r.splineStart == st.splineStart)
  {
    var start, n := st.splineStart.value, |st.tokens|;
    CopySplineCopies(st.tokens, start, 3);
    var c := CopySpline(st.tokens, start, 3).0;
    assert c[n] == DrawingToken(BSpline, c[n - (n - start)].point);
    assert c[n + 1] == DrawingToken(BSpline, c[n + 1 - (n - start)].point);
    assert c[n + 2] == DrawingToken(BSpline, c[n + 2 - (n - start)].point);
  }

  /** The `c` branch: the two-token check, then three rounds of copying. */
  method FinishSpline(tokens: seq<DrawingToken>, start: nat) returns (toks: seq<DrawingToken>, next: nat)
    requires start < |tokens|
    ensures (toks, next) == if ShouldFinishSpline(tokens, start) then CopySpline(tokens, start, 3) else (tokens, start)
  {
    var should := true;
    for i := 0 to 2
      invariant should
      invariant i >= 1 ==> tokens[start % |tokens|].tokenType == BSpline
      invariant i >= 2 ==> tokens[(start + 1) % |tokens|].tokenType == BSpline
    {
      if tokens[(start + i) % |tokens|].tokenType != BSpline {
        should := false;
        break;
      }
    }
    toks, next := tokens, start;
    if should {
      for k := 0 to 3
        invariant next < |toks|
        invariant CopySpline(toks, next, 3 - k) == CopySpline(tokens, start, 3)
      {
        toks := toks + [DrawingToken(BSpline, toks[next].point)];
        next := next + 1;
      }
    }
  }

  /**
    * The loop body after the space check: the `c` branch, a coordinate, or
    * a command letter; a step that reads no coordinate forgets a lone `x`.
    */
  method ReadItem<F>(text: seq<U8>, parse: seq<U8> -> Option<F>, toD6: F -> I32,
                     pos: nat, tokenType: Option<TokenType>, isSet: CoordStatus, point: Vector,
                     tokens: seq<DrawingToken>, splineStart: Option<nat>)
    returns (pos': nat, tokenType': Option<TokenType>, isSet': CoordStatus, point': Vector,
             tokens': seq<DrawingToken>, splineStart': Option<nat>)
    requires pos < |text| && text[pos] != SPACE && parse([]) == None
    requires TokState(pos, tokenType, isSet, point, tokens, splineStart).Valid()
    ensures TokState(pos', tokenType', isSet', point', tokens', splineStart')
      == TokBranch(text, parse, toD6, TokState(pos, tokenType, isSet, point, tokens, splineStart))
  {
    pos', tokenType', isSet', point', tokens', splineStart' := pos, tokenType, isSet, point, tokens, splineStart;
    var gotCoord := false;
    if text[pos] == LETTER_C && splineStart.Some? {
      var next;
      tokens', next := FinishSpline(tokens, splineStart.value);
      splineStart' := Some(next);
      pos' := pos + 1;
    } else {
      var parsed: Option<(F, nat)> := None;
      if isSet == NoCoord || isSet == GotX {
        parsed := Strtod(text, pos, parse);
      }
      if isSet == NoCoord && parsed.Some? {
        point' := point.(x := toD6(parsed.value.0));
        isSet' := GotX;
        gotCoord := true;
        pos' := parsed.value.1;
      } else if isSet == GotX && parsed.Some? {
        point' := point.(y := toD6(parsed.value.0));
        isSet' := GotXY;
        gotCoord := true;
        pos' := parsed.value.1;
      } else {
        tokenType' := LetterCommand(text[pos], tokenType);
        pos' := pos + 1;
      }
    }
    if !gotCoord {
      isSet' := NoCoord;
    }
  }

  /** `tokenize_drawing`: the loop over the text, proved to compute `Tokenize`. */
  method TokenizeDrawing<F>(text: seq<U8>, parse: seq<U8> -> Option<F>, toD6: F -> I32) returns (tokens: seq<DrawingToken>)
    requires parse([]) == None
    ensures tokens == Tokenize(text, parse, toD6)
  {
    var pos: nat := 0;
    var tokenType: Option<TokenType> := None;
    var isSet := NoCoord;
    var point := AssOutline.Vector(0, 0);
    tokens := [];
    var splineStart: Option<nat> := None;
    while pos < |text|
      invariant pos <= |text|
      invariant TokState(pos, tokenType, isSet, point, tokens, splineStart).Valid()
      invariant TokRun(text, parse, toD6, TokState(pos, tokenType, isSet, point, tokens, splineStart))
        == TokRun(text, parse, toD6, TokInit())
      decreases |text| - pos
    {
      ghost var st := TokState(pos, tokenType, isSet, point, tokens, splineStart);
      if text[pos] == SPACE {
        pos := pos + 1;
      } else {
        pos, tokenType, isSet, point, tokens, splineStart :=
          ReadItem(text, parse, toD6, pos, tokenType, isSet, point, tokens, splineStart);
        isSet, tokens, splineStart := PushToken(TokState(pos, tokenType, isSet, point, tokens, splineStart));
      }
      assert TokState(pos, tokenType, isSet, point, tokens, splineStart) == TokStep(text, parse, toD6, st);
      TokRunStep(text, parse, toD6, st);
    }
  }

  /** The push check at the end of the loop body. */
  method PushToken(st: TokState) returns (isSet: CoordStatus, tokens: seq<DrawingToken>, splineStart: Option<nat>)
    requires st.Valid()
    ensures st.(isSet := isSet, tokens := tokens, splineStart := splineStart) == EmitToken(st)
  {
    isSet, tokens, splineStart := st.isSet, st.tokens, st.splineStart;
    if st.tokenType.Some? && st.isSet == GotXY {
      tokens := tokens + [DrawingToken(st.tokenType.value, st.point)];
      isSet := NoCoord;
      if st.tokenType.value == BSpline && splineStart.None? {
        splineStart := Some(|tokens| - 1);
      }
    }
  }

  /** One turn of the loop leaves the rest of the run unchanged. */
  lemma TokRunStep<F>(text: seq<U8>, parse: seq<U8> -> Option<F>, toD6: F -> I32, st: TokState)
    requires st.pos < |text| && st.Valid() && parse([]) == None
    ensures TokRun(text, parse, toD6, st) == TokRun(text, parse, toD6, TokStep(text, parse, toD6, st))
  {
  }

  // ---------------------------------------------------------------------
  // add_curve
  // ---------------------------------------------------------------------

  /**
    * A bound on token coordinates under which the B-spline conversion of
    * `add_curve` cannot overflow `i32`: every intermediate value stays
    * within three times this bound.
    */
  const COORD_LIMIT: int := 0x1FFF_FFFF

  predicate InLimit(v: Vector)
  {
    -COORD_LIMIT <= v.x <= COORD_LIMIT && -COORD_LIMIT <= v.y <= COORD_LIMIT
  }

  predicate AllInLimit(tokens: seq<DrawingToken>)
  {
    forall k :: 0 <= k < |tokens| ==> InLimit(tokens[k].point)
  }

  /** Some token is a B-spline control point. */
  predicate HasSpline(tokens: seq<DrawingToken>)
  {
    exists k :: 0 <= k < |tokens| && tokens[k].tokenType == BSpline
  }

  /**
    * The coordinate bound where the arithmetic needs it. Only a B-spline
    * curve computes with its points, and its first point is the pen, which
    * any earlier token may have set; so a drawing with a B-spline token
    * needs every coordinate within the limit, and one without needs none.
    */
  predicate SplinesInLimit(tokens: seq<DrawingToken>)
  {
    HasSpline(tokens) ==> AllInLimit(tokens)
  }

  /** The pen is within the limit whenever a B-spline may use it. */
  predicate PenInLimit(tokens: seq<DrawingToken>, pen: Vector)
  {
    HasSpline(tokens) ==> InLimit(pen)
  }

  /** A third of the difference of two coordinates within the limit is within the limit. */
  lemma ThirdBound(a: int, b: int)
    requires -COORD_LIMIT <= a <= COORD_LIMIT && -COORD_LIMIT <= b <= COORD_LIMIT
    ensures -COORD_LIMIT <= TruncDiv(b - a, 3) <= COORD_LIMIT
  {
    QuotientBound(Ints.Abs(b - a), 3);
  }

  /** `(b - a) / 3` for two points within the limit, with its bound. */
  function Third(a: Vector, b: Vector): (r: Vector)
    requires InLimit(a) && InLimit(b)
    ensures InLimit(r)
  {
    ThirdBound(a.x, b.x);
    ThirdBound(a.y, b.y);
    AssOutline.Div(AssOutline.Sub(b, a), 3)
  }

  /** `p + ((d1 - d0) >> 1)`, the end points of the converted B-spline. */
  function Corner(p: Vector, d0: Vector, d1: Vector): Vector
    requires InLimit(p) && InLimit(d0) && InLimit(d1)
  {
    var h := AssOutline.Shr(AssOutline.Sub(d1, d0), 1);
    AssOutline.Add(p, h)
  }

  /**
    * The cubic `add_curve` pushes for control points `p`: the points as
    * given for a Bezier, or, for a B-spline, the Bezier control points of
    * its middle span computed with truncating `/ 3` and flooring `>> 1`.
    */
  function Curve(p: seq<Vector>, spline: bool): Segment
    requires |p| == 4 && (spline ==> forall k :: 0 <= k < 4 ==> InLimit(p[k]))
  {
    if !spline then AssOutline.CubicSpline(p[0], p[1], p[2], p[3])
    else SplineBezier(p[0], p[1], p[2], p[3])
  }

  /** The B-spline branch of `add_curve` on control points `a`, `b`, `c`, `d`. */
  function SplineBezier(a: Vector, b: Vector, c: Vector, d: Vector): Segment
    requires InLimit(a) && InLimit(b) && InLimit(c) && InLimit(d)
  {
    var p01 := Third(a, b);
    var p12 := Third(b, c);
    var p23 := Third(c, d);
    AssOutline.CubicSpline(Corner(b, p01, p12), AssOutline.Add(b, p12), AssOutline.Sub(c, p12), Corner(c, p12, p23))
  }

  lemma ThirdExact(d: int)
    requires d % 3 == 0
    ensures 3 * TruncDiv(d, 3) == d
  {
    TruncDivRemainder(d, 3);
    var m := d / 3;
    assert d == 3 * m;
  }

  lemma HalfExact(d: int)
    requires d % 2 == 0
    ensures 2 * ShiftRight(d, 1) == d
  {
    assert Pow2(1) == 2;
    var m := d / 2;
    assert d == 2 * m;
  }

  /**
    * Nothing is rounded away: the differences of four coordinates divide by
    * 3, and their second differences by 6.
    */
  predicate Unrounded(a: int, b: int, c: int, d: int)
  {
    (b - a) % 3 == 0 && (c - b) % 3 == 0 && (d - c) % 3 == 0
    && (a - 2 * b + c) % 6 == 0 && (b - 2 * c + d) % 6 == 0
  }

  /**
    * One coordinate of the B-spline conversion: when nothing is rounded
    * away, the four results are the uniform cubic B-spline's Bezier
    * points `(a + 4b + c) / 6`, `(2b + c) / 3`, `(b + 2c) / 3` and
    * `(b + 4c + d) / 6`.
    */
  lemma {:induction false} BSplineCoordinate(a: int, b: int, c: int, d: int, s0: int, s1: int, s2: int, s3: int)
    requires Unrounded(a, b, c, d)
    requires s0 == b + ShiftRight(TruncDiv(c - b, 3) - TruncDiv(b - a, 3), 1)
    requires s1 == b + TruncDiv(c - b, 3) && s2 == c - TruncDiv(c - b, 3)
    requires s3 == c + ShiftRight(TruncDiv(d - c, 3) - TruncDiv(c - b, 3), 1)
    ensures 6 * s0 == a + 4 * b + c && 3 * s1 == 2 * b + c
    ensures 3 * s2 == b + 2 * c && 6 * s3 == b + 4 * c + d
  {
    ThirdExact(b - a);
    ThirdExact(c - b);
    ThirdExact(d - c);
    var t01, t12, t23 := TruncDiv(b - a, 3), TruncDiv(c - b, 3), TruncDiv(d - c, 3);
    SecondDifferenceHalves(a - 2 * b + c, t12 - t01);
    SecondDifferenceHalves(b - 2 * c + d, t23 - t12);
    HalfExact(t12 - t01);
    HalfExact(t23 - t12);
  }

  /** A third of a multiple of 6 is even. */
  lemma SecondDifferenceHalves(e: int, t: int)
    requires e % 6 == 0 && 3 * t == e
    ensures t % 2 == 0
  {
    var m := e / 6;
    assert e == 6 * m;
    assert t == 2 * m;
  }

  /**
    * The B-spline conversion of `add_curve` is the uniform cubic B-spline
    * to Bezier conversion whenever the control points make it exact.
    */
  lemma CurveIsUniformBSpline(p: seq<Vector>)
    requires |p| == 4 && forall k :: 0 <= k < 4 ==> InLimit(p[k])
    requires Unrounded(p[0].x, p[1].x, p[2].x, p[3].x)
    requires Unrounded(p[0].y, p[1].y, p[2].y, p[3].y)
    ensures var s := Curve(p, true);
      6 * s.p0.x == p[0].x + 4 * p[1].x + p[2].x && 6 * s.p0.y == p[0].y + 4 * p[1].y + p[2].y
      && 3 * s.p1.x == 2 * p[1].x + p[2].x && 3 * s.p1.y == 2 * p[1].y + p[2].y
      && 3 * s.p2.x == p[1].x + 2 * p[2].x && 3 * s.p2.y == p[1].y + 2 * p[2].y
      && 6 * s.p3.x == p[1].x + 4 * p[2].x + p[3].x && 6 * s.p3.y == p[1].y + 4 * p[2].y + p[3].y
  {
    assert InLimit(p[0]) && InLimit(p[1]) && InLimit(p[2]) && InLimit(p[3]);
    SplineAxisX(p[0], p[1], p[2], p[3]);
    SplineAxisY(p[0], p[1], p[2], p[3]);
  }

  lemma SplineAxisX(a: Vector, b: Vector, c: Vector, d: Vector)
    requires InLimit(a) && InLimit(b) && InLimit(c) && InLimit(d)
    requires Unrounded(a.x, b.x, c.x, d.x)
    ensures 6 * SplineBezier(a, b, c, d).p0.x == a.x + 4 * b.x + c.x
    ensures 3 * SplineBezier(a, b, c, d).p1.x == 2 * b.x + c.x
    ensures 3 * SplineBezier(a, b, c, d).p2.x == b.x + 2 * c.x
    ensures 6 * SplineBezier(a, b, c, d).p3.x == b.x + 4 * c.x + d.x
  {
    SplinePointsX(a, b, c, d);
    var s := SplineBezier(a, b, c, d);
    BSplineCoordinate(a.x, b.x, c.x, d.x, s.p0.x, s.p1.x, s.p2.x, s.p3.x);
  }

  /** The x coordinates of a converted B-spline, in integer operations. */
  lemma SplinePointsX(a: Vector, b: Vector, c: Vector, d: Vector)
    requires InLimit(a) && InLimit(b) && InLimit(c) && InLimit(d)
    ensures SplineBezier(a, b, c, d).p0.x == b.x + ShiftRight(TruncDiv(c.x - b.x, 3) - TruncDiv(b.x - a.x, 3), 1)
    ensures SplineBezier(a, b, c, d).p1.x == b.x + TruncDiv(c.x - b.x, 3)
    ensures SplineBezier(a, b, c, d).p2.x == c.x - TruncDiv(c.x - b.x, 3)
    ensures SplineBezier(a, b, c, d).p3.x == c.x + ShiftRight(TruncDiv(d.x - c.x, 3) - TruncDiv(c.x - b.x, 3), 1)
  {
  }

  lemma SplineAxisY(a: Vector, b: Vector, c: Vector, d: Vector)
    requires InLimit(a) && InLimit(b) && InLimit(c) && InLimit(d)
    requires Unrounded(a.y, b.y, c.y, d.y)
    ensures 6 * SplineBezier(a, b, c, d).p0.y == a.y + 4 * b.y + c.y
    ensures 3 * SplineBezier(a, b, c, d).p1.y == 2 * b.y + c.y
    ensures 3 * SplineBezier(a, b, c, d).p2.y == b.y + 2 * c.y
    ensures 6 * SplineBezier(a, b, c, d).p3.y == b.y + 4 * c.y + d.y
  {
    SplinePointsY(a, b, c, d);
    var s := SplineBezier(a, b, c, d);
    BSplineCoordinate(a.y, b.y, c.y, d.y, s.p0.y, s.p1.y, s.p2.y, s.p3.y);
  }

  /** The y coordinates of a converted B-spline, in integer operations. */
  lemma SplinePointsY(a: Vector, b: Vector, c: Vector, d: Vector)
    requires InLimit(a) && InLimit(b) && InLimit(c) && InLimit(d)
    ensures SplineBezier(a, b, c, d).p0.y == b.y + ShiftRight(TruncDiv(c.y - b.y, 3) - TruncDiv(b.y - a.y, 3), 1)
    ensures SplineBezier(a, b, c, d).p1.y == b.y + TruncDiv(c.y - b.y, 3)
    ensures SplineBezier(a, b, c, d).p2.y == c.y - TruncDiv(c.y - b.y, 3)
    ensures SplineBezier(a, b, c, d).p3.y == c.y + ShiftRight(TruncDiv(d.y - c.y, 3) - TruncDiv(c.y - b.y, 3), 1)
  {
  }

  /**
    * `add_curve`: widen `cbox` by the four points in order, convert a
    * B-spline in the local array `p`, and push one cubic.
    */
  method AddCurve(segments: seq<Segment>, cbox: Rect, pts: seq<Vector>, spline: bool) returns (segs: seq<Segment>)
    requires |pts| == 4 && (spline ==> forall k :: 0 <= k < 4 ==> InLimit(pts[k]))
    modifies cbox
    ensures segs == segments + [Curve(pts, spline)]
    ensures cbox.Box() == AssOutline.WidenAll(old(cbox.Box()), pts)
  {
    var p := new Vector[4];
    p[0], p[1], p[2], p[3] := pts[0], pts[1], pts[2], pts[3];
    assert p[..] == pts;
    WidenByPoints(cbox, p);
    if spline {
      SplineToBezier(p);
    }
    segs := segments + [AssOutline.CubicSpline(p[0], p[1], p[2], p[3])];
  }

  /** The first loop of `add_curve`: `cbox.update` with each point in turn. */
  method WidenByPoints(cbox: Rect, p: array<Vector>)
    modifies cbox
    ensures cbox.Box() == AssOutline.WidenAll(old(cbox.Box()), p[..])
  {
    for i := 0 to p.Length
      invariant cbox.Box() == AssOutline.WidenAll(old(cbox.Box()), p[..i])
    {
      cbox.Update(p[i].x, p[i].y, p[i].x, p[i].y);
      assert p[..i + 1][..i] == p[..i];
    }
    assert p[..p.Length] == p[..];
  }

  /** The B-spline branch of `add_curve`, rewriting `p` in place. */
  method SplineToBezier(p: array<Vector>)
    requires p.Length == 4 && forall k :: 0 <= k < 4 ==> InLimit(p[k])
    modifies p
    ensures AssOutline.CubicSpline(p[0], p[1], p[2], p[3]) == SplineBezier(old(p[0]), old(p[1]), old(p[2]), old(p[3]))
  {
    var p01 := Third(p[0], p[1]);
    var p12 := Third(p[1], p[2]);
    var p23 := Third(p[2], p[3]);
    p[0] := Corner(p[1], p01, p12);
    p[3] := Corner(p[2], p12, p23);
    p[1] := AssOutline.Add(p[1], p12);
    p[2] := AssOutline.Sub(p[2], p12);
  }

  // ---------------------------------------------------------------------
  // parse_drawing
  // ---------------------------------------------------------------------

  /** The variables of the `parse_drawing` loop; `i` is the next token. */
  datatype ParseState = ParseState(
    i: nat,
    pen: Vector,
    shapeStart: Option<Vector>,
    segs: seq<Segment>,
    box: Bounds)

  /** `Rect::default()` followed by `reset()`: the empty box. */
  function EmptyBox(): Bounds
  {
    AssOutline.Bounds(I32_MAX, I32_MAX, I32_MIN, I32_MIN)
  }

  function ParseInit(): ParseState
  {
    ParseState(0, AssOutline.Vector(0, 0), None, [], EmptyBox())
  }

  /** `shape_start.or(Some(pen))`. */
  function OpenShape(shapeStart: Option<Vector>, pen: Vector): Option<Vector>
  {
    if shapeStart.Some? then shapeStart else Some(pen)
  }

  /** The closing line from the pen back to the shape's start, if a shape is open. */
  function CloseShape(st: ParseState): seq<Segment>
  {
    if st.shapeStart.Some? then st.segs + [AssOutline.LineSegment(st.pen, st.shapeStart.value)] else st.segs
  }

  /**
    * One turn of the loop. A curve token takes the next two tokens along
    * only when both exist and have its type; otherwise it alone is dropped.
    */
  function ParseStep(tokens: seq<DrawingToken>, st: ParseState): (r: ParseState)
    requires st.i < |tokens| && SplinesInLimit(tokens) && PenInLimit(tokens, st.pen)
    ensures st.i < r.i <= |tokens| && PenInLimit(tokens, r.pen)
  {
    var t := tokens[st.i];
    match t.tokenType
    case MoveNc =>
      st.(i := st.i + 1, pen := t.point, box := st.box.WidenTo(t.point))
    case Move =>
      st.(i := st.i + 1, segs := CloseShape(st), shapeStart := None,
          pen := t.point, box := st.box.WidenTo(t.point))
    case Line =>
      st.(i := st.i + 1, box := st.box.WidenTo(t.point),
          segs := st.segs + [AssOutline.LineSegment(st.pen, t.point)],
          shapeStart := OpenShape(st.shapeStart, st.pen), pen := t.point)
    case _ =>
      if st.i + 2 < |tokens| && tokens[st.i + 1].tokenType == t.tokenType
        && tokens[st.i + 2].tokenType == t.tokenType
      then
        var pts := [st.pen, t.point, tokens[st.i + 1].point, tokens[st.i + 2].point];
        assert t.tokenType == BSpline ==> HasSpline(tokens);
        st.(i := st.i + 3, box := AssOutline.WidenAll(st.box, pts),
            segs := st.segs + [Curve(pts, t.tokenType == BSpline)],
            shapeStart := OpenShape(st.shapeStart, st.pen), pen := tokens[st.i + 2].point)
      else
        st.(i := st.i + 1)
  }

  /** The loop run over the remaining tokens. */
  function ParseRun(tokens: seq<DrawingToken>, st: ParseState): (r: ParseState)
    requires st.i <= |tokens| && SplinesInLimit(tokens) && PenInLimit(tokens, st.pen)
    ensures r.i == |tokens|
    decreases |tokens| - st.i
  {
    if st.i == |tokens| then st else ParseRun(tokens, ParseStep(tokens, st))
  }

  /** `parse_drawing` after tokenizing: the segments and the box. */
  function ParseSpec(tokens: seq<DrawingToken>): (Bounds, seq<Segment>)
    requires SplinesInLimit(tokens)
  {
    var st := ParseRun(tokens, ParseInit());
    (st.box, CloseShape(st))
  }

  /** The `parse_drawing` loop over the tokens, proved to compute `ParseSpec`. */
  method ParseTokens(tokens: seq<DrawingToken>) returns (segments: seq<Segment>, cbox: Rect)
    requires SplinesInLimit(tokens)
    ensures fresh(cbox)
    ensures (cbox.Box(), segments) == ParseSpec(tokens)
  {
    cbox := new AssOutline.Rect();
    cbox.Reset();
    segments := [];
    var pen := AssOutline.Vector(0, 0);
    var shapeStart: Option<Vector> := None;
    var i := 0;
    while i < |tokens|
      invariant i <= |tokens| && PenInLimit(tokens, pen)
      invariant ParseRun(tokens, ParseState(i, pen, shapeStart, segments, cbox.Box()))
        == ParseRun(tokens, ParseInit())
      decreases |tokens| - i
    {
      ghost var st := ParseState(i, pen, shapeStart, segments, cbox.Box());
      i, pen, shapeStart, segments := ParseToken(tokens, i, pen, shapeStart, segments, cbox);
      ParseRunStep(tokens, st);
    }
    if shapeStart.Some? {
      segments := segments + [AssOutline.LineSegment(pen, shapeStart.value)];
    }
  }

  /** The body of the `parse_drawing` loop: one token, or a curve's three. */
  method ParseToken(tokens: seq<DrawingToken>, i: nat, pen: Vector, shapeStart: Option<Vector>,
                    segments: seq<Segment>, cbox: Rect)
    returns (i': nat, pen': Vector, shapeStart': Option<Vector>, segments': seq<Segment>)
    requires i < |tokens| && SplinesInLimit(tokens) && PenInLimit(tokens, pen)
    modifies cbox
    ensures ParseState(i', pen', shapeStart', segments', cbox.Box())
      == ParseStep(tokens, ParseState(i, pen, shapeStart, segments, old(cbox.Box())))
  {
    i', pen', shapeStart', segments' := i + 1, pen, shapeStart, segments;
    var token := tokens[i];
    match token.tokenType {
      case MoveNc =>
        pen' := token.point;
        cbox.Update(pen'.x, pen'.y, pen'.x, pen'.y);
      case Move =>
        if shapeStart.Some? {
          segments' := segments + [AssOutline.LineSegment(pen, shapeStart.value)];
          shapeStart' := None;
        }
        pen' := token.point;
        cbox.Update(pen'.x, pen'.y, pen'.x, pen'.y);
      case Line =>
        var to := token.point;
        cbox.Update(to.x, to.y, to.x, to.y);
        segments' := segments + [AssOutline.LineSegment(pen, to)];
        shapeStart' := OpenShape(shapeStart, pen);
        pen' := to;
      case _ =>
        var ty := token.tokenType;
        if i + 2 < |tokens| && tokens[i + 1].tokenType == ty && tokens[i + 2].tokenType == ty {
          var t2, t3 := tokens[i + 1], tokens[i + 2];
          assert ty == BSpline ==> HasSpline(tokens);
          i' := i + 3;
          segments' := AddCurve(segments, cbox, [pen, token.point, t2.point, t3.point], ty == BSpline);
          shapeStart' := OpenShape(shapeStart, pen);
          pen' := t3.point;
        }
    }
  }

  /** One turn of the loop leaves the rest of the run unchanged. */
  lemma ParseRunStep(tokens: seq<DrawingToken>, st: ParseState)
    requires st.i < |tokens| && SplinesInLimit(tokens) && PenInLimit(tokens, st.pen)
    ensures ParseRun(tokens, st) == ParseRun(tokens, ParseStep(tokens, st))
  {
  }

  /**
    * `parse_drawing`: tokenize, then assemble. A drawing with a B-spline
    * must keep its coordinates within `COORD_LIMIT`, where the curve
    * arithmetic cannot overflow.
    */
  method ParseDrawing<F>(text: seq<U8>, parse: seq<U8> -> Option<F>, toD6: F -> I32)
    returns (segments: seq<Segment>, cbox: Rect)
    requires parse([]) == None
    requires SplinesInLimit(Tokenize(text, parse, toD6))
    ensures fresh(cbox)
    ensures (cbox.Box(), segments) == ParseSpec(Tokenize(text, parse, toD6))
  {
    var tokens := TokenizeDrawing(text, parse, toD6);
    segments, cbox := ParseTokens(tokens);
  }

  // ---------------------------------------------------------------------
  // Every shape is closed
  // ---------------------------------------------------------------------

  function Start(s: Segment): Vector
  {
    s.p0
  }

  function End(s: Segment): Vector
  {
    match s
    case LineSegment(_, p1) => p1
    case QuadSpline(_, _, p2) => p2
    case CubicSpline(_, _, _, p3) => p3
  }

  /** Each segment starts where the previous one ends. */
  predicate Chained(c: seq<Segment>)
  {
    forall j :: 0 < j < |c| ==> End(c[j - 1]) == Start(c[j])
  }

  /** A chain from `start` to `pen`: an open shape being drawn. */
  predicate OpenChain(c: seq<Segment>, start: Vector, pen: Vector)
  {
    |c| > 0 && Chained(c) && Start(c[0]) == start && End(c[|c| - 1]) == pen
  }

  /** A chain that ends where it starts: a closed shape. */
  predicate Loop(c: seq<Segment>)
  {
    |c| > 0 && Chained(c) && End(c[|c| - 1]) == Start(c[0])
  }

  /** A sequence of closed shapes, one after another. */
  predicate Loops(s: seq<Segment>)
    decreases |s|
  {
    s == [] || exists k :: 0 <= k < |s| && Loops(s[..k]) && Loop(s[k..])
  }

  /** The parser's shape bookkeeping: closed shapes, then the open one if any. */
  predicate ShapesClosed(segs: seq<Segment>, shapeStart: Option<Vector>, pen: Vector)
  {
    if shapeStart.None? then Loops(segs)
    else exists k :: 0 <= k < |segs| && Loops(segs[..k]) && OpenChain(segs[k..], shapeStart.value, pen)
  }

  /** Token streams without `n` (move without closing) and without B-splines. */
  predicate PlainTokens(tokens: seq<DrawingToken>)
  {
    forall k :: 0 <= k < |tokens| ==> tokens[k].tokenType != MoveNc && tokens[k].tokenType != BSpline
  }

  lemma ExtendChain(c: seq<Segment>, start: Vector, pen: Vector, seg: Segment)
    requires OpenChain(c, start, pen) && Start(seg) == pen
    ensures OpenChain(c + [seg], start, End(seg))
  {
    var c' := c + [seg];
    forall j | 0 < j < |c'|
      ensures End(c'[j - 1]) == Start(c'[j])
    {
      if j < |c| {
        assert c'[j - 1] == c[j - 1] && c'[j] == c[j];
      }
    }
  }

  /** Appending the closing line to an open chain closes it. */
  lemma CloseChain(c: seq<Segment>, start: Vector, pen: Vector)
    requires OpenChain(c, start, pen)
    ensures Loop(c + [AssOutline.LineSegment(pen, start)])
  {
    ExtendChain(c, start, pen, AssOutline.LineSegment(pen, start));
  }

  /** Closed shapes followed by one more closed shape. */
  lemma LoopsAppend(s: seq<Segment>, c: seq<Segment>)
    requires Loops(s) && Loop(c)
    ensures Loops(s + c)
  {
    var t := s + c;
    assert t[..|s|] == s && t[|s|..] == c;
  }

  /** A step extends the segments by one segment `seg`, split after `k`. */
  lemma SplitAppend(segs: seq<Segment>, k: nat, seg: Segment)
    requires k <= |segs|
    ensures (segs + [seg])[..k] == segs[..k]
    ensures (segs + [seg])[k..] == segs[k..] + [seg]
  {
  }

  /** Closing the open shape, if there is one, leaves only closed shapes. */
  lemma CloseShapeCloses(st: ParseState)
    requires ShapesClosed(st.segs, st.shapeStart, st.pen)
    ensures Loops(CloseShape(st))
  {
    if st.shapeStart.Some? {
      var k :| 0 <= k < |st.segs| && Loops(st.segs[..k]) && OpenChain(st.segs[k..], st.shapeStart.value, st.pen);
      var closing := AssOutline.LineSegment(st.pen, st.shapeStart.value);
      CloseChain(st.segs[k..], st.shapeStart.value, st.pen);
      LoopsAppend(st.segs[..k], st.segs[k..] + [closing]);
      assert st.segs[..k] + (st.segs[k..] + [closing]) == st.segs + [closing];
    }
  }

  /** A segment drawn from the pen extends the open shape, or opens one at the pen. */
  lemma DrawKeepsShapes(segs: seq<Segment>, shapeStart: Option<Vector>, pen: Vector, seg: Segment)
    requires ShapesClosed(segs, shapeStart, pen) && Start(seg) == pen
    ensures ShapesClosed(segs + [seg], OpenShape(shapeStart, pen), End(seg))
  {
    var segs' := segs + [seg];
    if shapeStart.Some? {
      var k :| 0 <= k < |segs| && Loops(segs[..k]) && OpenChain(segs[k..], shapeStart.value, pen);
      SplitAppend(segs, k, seg);
      ExtendChain(segs[k..], shapeStart.value, pen, seg);
      assert 0 <= k < |segs'| && Loops(segs'[..k]) && OpenChain(segs'[k..], shapeStart.value, End(seg));
    } else {
      var k := |segs|;
      SplitAppend(segs, k, seg);
      assert segs[..k] == segs && segs[k..] == [];
      assert OpenChain(segs'[k..], pen, End(seg));
    }
  }

  lemma ParseStepKeepsShapes(tokens: seq<DrawingToken>, st: ParseState)
    requires st.i < |tokens| && PlainTokens(tokens) && ShapesClosed(st.segs, st.shapeStart, st.pen)
    ensures var r := ParseStep(tokens, st); ShapesClosed(r.segs, r.shapeStart, r.pen)
  {
    var t := tokens[st.i];
    match t.tokenType
    case Move =>
      CloseShapeCloses(st);
    case Line =>
      DrawKeepsShapes(st.segs, st.shapeStart, st.pen, AssOutline.LineSegment(st.pen, t.point));
    case CubicBezier =>
      if st.i + 2 < |tokens| && tokens[st.i + 1].tokenType == t.tokenType
        && tokens[st.i + 2].tokenType == t.tokenType {
        var pts := [st.pen, t.point, tokens[st.i + 1].point, tokens[st.i + 2].point];
        DrawKeepsShapes(st.segs, st.shapeStart, st.pen, Curve(pts, false));
      }
  }

  lemma {:induction false} ParseRunKeepsShapes(tokens: seq<DrawingToken>, st: ParseState)
    requires st.i <= |tokens| && PlainTokens(tokens) && ShapesClosed(st.segs, st.shapeStart, st.pen)
    ensures var r := ParseRun(tokens, st); ShapesClosed(r.segs, r.shapeStart, r.pen)
    decreases |tokens| - st.i
  {
    if st.i < |tokens| {
      ParseStepKeepsShapes(tokens, st);
      ParseRunKeepsShapes(tokens, ParseStep(tokens, st));
    }
  }

  /**
    * Without `n` and B-spline commands, `parse_drawing` emits closed
    * shapes only: the segments split into runs, each of which starts where
    * the previous one ended and returns to its own start.
    */
  lemma ParseClosesShapes(tokens: seq<DrawingToken>)
    requires PlainTokens(tokens)
    ensures Loops(ParseSpec(tokens).1)
  {
    ParseRunKeepsShapes(tokens, ParseInit());
    CloseShapeCloses(ParseRun(tokens, ParseInit()));
  }
}
