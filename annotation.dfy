/**
  * `draw_bounding_boxes`: walks the engine's column-oriented token table
  * (`image_to_data` with dictionary output) row by row, keeps the tokens
  * whose stripped text is non-empty and whose confidence reaches the
  * threshold, and for each kept token draws a green rectangle and a red
  * label of at most 25 characters just above it on a copy of the image.
  */
module Annotation {
  import opened Wrappers
  import opened TextCleanup
  import opened Drawing
  import opened Selection

  /** The confidence threshold `main` passes (and the parameter's default). */
  const DefaultThreshold: real := 60.0
  /** What an unparsable confidence counts as. */
  const UnparsableConfidence: real := -1.0
  /** Labels are cut to this many characters. */
  const LabelMaxLength: nat := 25
  /** A label's baseline sits this many pixels above its box, but never above row 0. */
  const LabelLift: int := 5
  const BoxColor: Color := Bgr(0, 255, 0)
  const BoxThickness: int := 2
  const LabelColor: Color := Bgr(0, 0, 255)
  const LabelScale: real := 0.5
  const LabelThickness: int := 1

  /** A confidence cell as `float(conf_raw)` sees it: a number, or a value it cannot parse. */
  datatype Conf = Parsed(value: real) | Unparsable

  /** One row of the token table, after missing columns took their defaults. */
  datatype Token = Token(text: Option<string>, conf: Conf, left: int, top: int, width: int, height: int)

  /**
    * The dictionary `image_to_data` returns: each key maps to a column (a
    * list indexed by row), and any key may be missing.  Only `level` decides
    * the number of rows.
    */
  datatype TokenTable = TokenTable(
    level: Option<seq<int>>,
    text: Option<seq<Option<string>>>,
    conf: Option<seq<Conf>>,
    left: Option<seq<int>>,
    top: Option<seq<int>>,
    width: Option<seq<int>>,
    height: Option<seq<int>>)

  datatype Column = TextColumn | ConfColumn | LeftColumn | TopColumn | WidthColumn | HeightColumn

  /** Python's `IndexError` on reading row `index` of a column that is too short. */
  datatype Failure = IndexOutOfRange(column: Column, index: nat)

  /** What `draw_bounding_boxes` returns: the annotated copy and the number of boxes drawn. */
  datatype Drawn = Drawn(annotated: Canvas, count: nat)

  function Min(a: int, b: int): int { if a <= b then a else b }
  function Max(a: int, b: int): int { if a >= b then a else b }

  // ---------------------------------------------------------------------
  // One token

  /** `float(conf_raw)`, or -1.0 when that raises. */
  function Confidence(c: Conf): real {
    match c
    case Parsed(v) => v
    case Unparsable => UnparsableConfidence
  }

  /** `(text or "").strip()`. */
  function TokenText(tok: Token): (s: string)
    ensures Trimmed(s)
    ensures s == [] <==> tok.text.None? || AllSpace(tok.text.value)
  {
    Strip(match tok.text case None => "" case Some(s) => s)
  }

  /** The filter of `draw_bounding_boxes`: non-blank text and a confidence at or above the threshold. */
  predicate Passes(tok: Token, threshold: real)
    ensures Passes(tok, threshold) <==>
              tok.text.Some? && !AllSpace(tok.text.value) && Confidence(tok.conf) >= threshold
  {
    TokenText(tok) != [] && Confidence(tok.conf) >= threshold
  }

  /** The rectangle drawn around a kept token. */
  function Box(tok: Token): (cmd: DrawCommand)
    ensures cmd.DrawRect? && cmd.x1 == tok.left && cmd.y1 == tok.top
    ensures cmd.x2 - cmd.x1 == tok.width && cmd.y2 - cmd.y1 == tok.height
  {
    DrawRect(tok.left, tok.top, tok.left + tok.width, tok.top + tok.height, BoxColor, BoxThickness)
  }

  /**
    * The label drawn for a kept token: a prefix of its stripped text of at
    * most 25 characters (all of it when shorter), placed at the box's left
    * edge, 5 pixels above the box but clamped to row 0.
    */
  function Label(tok: Token): (cmd: DrawCommand)
    ensures cmd.DrawText? && cmd.x == tok.left
    ensures cmd.text <= TokenText(tok) && |cmd.text| <= LabelMaxLength
    ensures cmd.text == TokenText(tok) || |cmd.text| == LabelMaxLength
    ensures cmd.y >= 0 && cmd.y >= tok.top - LabelLift
    ensures cmd.y == 0 || cmd.y == tok.top - LabelLift
  {
    var t := TokenText(tok);
    DrawText(t[..Min(LabelMaxLength, |t|)], tok.left, Max(0, tok.top - LabelLift),
             LabelScale, LabelColor, LabelThickness)
  }

  /** What one loop iteration draws for `tok`: a box and its label, or nothing. */
  function Commands(tok: Token, threshold: real): seq<DrawCommand> {
    if Passes(tok, threshold) then [Box(tok), Label(tok)] else []
  }

  // ---------------------------------------------------------------------
  // A sequence of tokens

  /** Everything drawn for `ts`, in token order. */
  function Render(ts: seq<Token>, threshold: real): seq<DrawCommand> {
    if ts == [] then []
    else Render(ts[..|ts| - 1], threshold) + Commands(ts[|ts| - 1], threshold)
  }

  /** The filter as a test on one token. */
  function Keep(threshold: real): Token -> bool {
    tok => Passes(tok, threshold)
  }

  /** The tokens that pass the filter, in token order. */
  function Survivors(ts: seq<Token>, threshold: real): seq<Token> {
    Filter(ts, Keep(threshold))
  }

  /** The positions of the tokens that pass the filter, in increasing order. */
  function SurvivorIndices(ts: seq<Token>, threshold: real): seq<nat> {
    Positions(ts, Keep(threshold))
  }

  /**
    * Boxes follow token order and come from exactly the right tokens: the
    * kept positions are those whose token passes the filter, listed once
    * each in increasing order, and the survivors are the tokens there.
    */
  lemma SurvivorIndicesCorrect(ts: seq<Token>, threshold: real)
    ensures |SurvivorIndices(ts, threshold)| == |Survivors(ts, threshold)| <= |ts|
    ensures forall j :: 0 <= j < |SurvivorIndices(ts, threshold)| ==>
              SurvivorIndices(ts, threshold)[j] < |ts| &&
              Survivors(ts, threshold)[j] == ts[SurvivorIndices(ts, threshold)[j]]
    ensures forall j, k :: 0 <= j < k < |SurvivorIndices(ts, threshold)| ==>
              SurvivorIndices(ts, threshold)[j] < SurvivorIndices(ts, threshold)[k]
    ensures forall i :: 0 <= i < |ts| ==> (i in SurvivorIndices(ts, threshold) <==> Passes(ts[i], threshold))
  {
    FilterAtPositions(ts, Keep(threshold));
    PositionsIncreasing(ts, Keep(threshold));
    PositionsExact(ts, Keep(threshold));
  }

  /**
    * Everything drawn for `ts` is, survivor by survivor, its box followed by
    * its label; so twice as many commands as survivors are drawn.
    */
  lemma {:induction false} RenderShape(ts: seq<Token>, threshold: real)
    ensures |Render(ts, threshold)| == 2 * |Survivors(ts, threshold)|
    ensures forall j :: 0 <= j < |Survivors(ts, threshold)| ==>
              Render(ts, threshold)[2 * j] == Box(Survivors(ts, threshold)[j]) &&
              Render(ts, threshold)[2 * j + 1] == Label(Survivors(ts, threshold)[j])
  {
    if ts != [] {
      var init, last := ts[..|ts| - 1], ts[|ts| - 1];
      RenderShape(init, threshold);
      var r0, s0 := Render(init, threshold), Survivors(init, threshold);
      assert Keep(threshold)(last) == Passes(last, threshold);
      if Passes(last, threshold) {
        assert Survivors(ts, threshold) == s0 + [last];
        assert Render(ts, threshold) == r0 + [Box(last), Label(last)];
      } else {
        assert Survivors(ts, threshold) == s0;
        assert Render(ts, threshold) == r0;
      }
    }
  }

  /** Every label drawn for `ts` lies at a non-negative row and holds at most 25 characters. */
  lemma {:induction false} RenderLabelsPlaced(ts: seq<Token>, threshold: real)
    ensures forall c :: c in Render(ts, threshold) && c.DrawText? ==>
              c.y >= 0 && |c.text| <= LabelMaxLength
  {
    if ts != [] {
      RenderLabelsPlaced(ts[..|ts| - 1], threshold);
      var last := ts[|ts| - 1];
      assert Passes(last, threshold) ==> Label(last).y >= 0 && |Label(last).text| <= LabelMaxLength;
    }
  }

  /** A token whose text is missing, empty or whitespace-only is never drawn, whatever its confidence. */
  lemma BlankNeverDrawn(tok: Token, threshold: real)
    requires tok.text == None || AllSpace(tok.text.value)
    ensures Commands(tok, threshold) == []
  {
  }

  /** The threshold is inclusive: a confidence equal to it is kept, one below it is not. */
  lemma ThresholdInclusive(tok: Token, threshold: real)
    requires TokenText(tok) != []
    ensures tok.conf == Parsed(threshold) ==> Commands(tok, threshold) == [Box(tok), Label(tok)]
    ensures Confidence(tok.conf) < threshold ==> Commands(tok, threshold) == []
  {
  }

  /**
    * An unparsable confidence counts as -1.0: such a token is drawn only
    * when its text is non-blank and the threshold is -1.0 or lower, so never
    * under a threshold of 0 or more such as the default 60.
    */
  lemma UnparsableConfidenceRule(tok: Token, threshold: real)
    requires tok.conf.Unparsable?
    ensures Passes(tok, threshold) <==> TokenText(tok) != [] && threshold <= -1.0
    ensures threshold >= 0.0 ==> Commands(tok, threshold) == []
    ensures Commands(tok, DefaultThreshold) == []
  {
  }

  // ---------------------------------------------------------------------
  // The token table

  /** `len(data["level"]) if "level" in data else 0`. */
  function RowCount(t: TokenTable): nat {
    match t.level
    case None => 0
    case Some(l) => |l|
  }

  /**
    * `data.get(key, [default] * n)[i]`: the default when the column is
    * missing, the cell when the column is long enough, `None` when indexing
    * it raises `IndexError`.
    */
  function Cell<T>(col: Option<seq<T>>, i: nat, default: T): Option<T> {
    match col
    case None => Some(default)
    case Some(s) => if i < |s| then Some(s[i]) else None
  }

  /**
    * Row `i` of the loop, reading the columns in the order the source does:
    * text and confidence for every row, position and size only for a row
    * that passes the filter.
    */
  function Step(t: TokenTable, i: nat, threshold: real): (r: Result<seq<DrawCommand>, Failure>)
    ensures r.Err? ==> r.error.index == i
    ensures r.Ok? ==> r.value == [] || |r.value| == 2
    ensures r == Err(IndexOutOfRange(TextColumn, i)) <==> Cell(t.text, i, Some("")).None?
    ensures r.Err? && r.error.column !in {TextColumn, ConfColumn} ==>
              Cell(t.text, i, Some("")).Some? && Cell(t.conf, i, Parsed(UnparsableConfidence)).Some? &&
              Passes(Token(Cell(t.text, i, Some("")).value, Cell(t.conf, i, Parsed(UnparsableConfidence)).value,
                           0, 0, 0, 0), threshold)
  {
    match Cell(t.text, i, Some(""))
    case None => Err(IndexOutOfRange(TextColumn, i))
    case Some(text) =>
      match Cell(t.conf, i, Parsed(UnparsableConfidence))
      case None => Err(IndexOutOfRange(ConfColumn, i))
      case Some(conf) =>
        if !Passes(Token(text, conf, 0, 0, 0, 0), threshold) then Ok([])
        else
          match Cell(t.left, i, 0)
          case None => Err(IndexOutOfRange(LeftColumn, i))
          case Some(x) =>
            match Cell(t.top, i, 0)
            case None => Err(IndexOutOfRange(TopColumn, i))
            case Some(y) =>
              match Cell(t.width, i, 0)
              case None => Err(IndexOutOfRange(WidthColumn, i))
              case Some(w) =>
                match Cell(t.height, i, 0)
                case None => Err(IndexOutOfRange(HeightColumn, i))
                case Some(h) => Ok(Commands(Token(text, conf, x, y, w, h), threshold))
  }

  /** Adding nothing or a box and its label keeps the number of commands even. */
  lemma EvenAfterStep(drawn: nat, more: nat)
    requires drawn % 2 == 0 && (more == 0 || more == 2)
    ensures (drawn + more) % 2 == 0
  {
  }

  /** The first `k` rows of the loop: the commands drawn so far, or the first error raised. */
  function Annotate(t: TokenTable, threshold: real, k: nat): (r: Result<seq<DrawCommand>, Failure>)
    ensures r.Ok? ==> |r.value| % 2 == 0 && |r.value| <= 2 * k
    ensures r.Err? ==> r.error.index < k
  {
    if k == 0 then Ok([])
    else
      match Annotate(t, threshold, k - 1)
      case Err(e) => Err(e)
      case Ok(cmds) =>
        var step := Step(t, k - 1, threshold);
        match step
        case Err(e) => Err(e)
        case Ok(more) =>
          assert |cmds + more| == |cmds| + |more|;
          EvenAfterStep(|cmds|, |more|);
          Ok(cmds + more)
  }

  /** Every present column has at least one cell per row, as the engine produces it. */
  predicate WellFormed(t: TokenTable) {
    var n := RowCount(t);
    (t.text.None? || |t.text.value| >= n) && (t.conf.None? || |t.conf.value| >= n) &&
    (t.left.None? || |t.left.value| >= n) && (t.top.None? || |t.top.value| >= n) &&
    (t.width.None? || |t.width.value| >= n) && (t.height.None? || |t.height.value| >= n)
  }

  /** Row `i` of a well-formed table as a token record, defaults filled in. */
  function TokenAt(t: TokenTable, i: nat): Token
    requires WellFormed(t) && i < RowCount(t)
  {
    Token(Cell(t.text, i, Some("")).value, Cell(t.conf, i, Parsed(UnparsableConfidence)).value,
          Cell(t.left, i, 0).value, Cell(t.top, i, 0).value,
          Cell(t.width, i, 0).value, Cell(t.height, i, 0).value)
  }

  /** All rows of a well-formed table as token records. */
  function Tokens(t: TokenTable): (ts: seq<Token>)
    requires WellFormed(t)
    ensures |ts| == RowCount(t)
  {
    seq(RowCount(t), i requires 0 <= i < RowCount(t) => TokenAt(t, i))
  }

  /** On a well-formed table a row never raises and draws what its token record calls for. */
  lemma StepWellFormed(t: TokenTable, threshold: real, i: nat)
    requires WellFormed(t) && i < RowCount(t)
    ensures Step(t, i, threshold) == Ok(Commands(TokenAt(t, i), threshold))
  {
    var tok := TokenAt(t, i);
    assert Passes(Token(tok.text, tok.conf, 0, 0, 0, 0), threshold) == Passes(tok, threshold);
  }

  /** Once the loop has raised, later rows do not change the outcome. */
  lemma {:induction false} AnnotateErrorPersists(t: TokenTable, threshold: real, i: nat, k: nat)
    requires i <= k && Annotate(t, threshold, i).Err?
    ensures Annotate(t, threshold, k) == Annotate(t, threshold, i)
  {
    if i < k {
      AnnotateErrorPersists(t, threshold, i, k - 1);
    }
  }

  /**
    * On a well-formed table nothing raises, and the loop draws exactly what
    * `Render` draws for the table's tokens.
    */
  lemma {:induction false} AnnotateWellFormed(t: TokenTable, threshold: real, k: nat)
    requires WellFormed(t) && k <= RowCount(t)
    ensures Annotate(t, threshold, k) == Ok(Render(Tokens(t)[..k], threshold))
  {
    if k > 0 {
      AnnotateWellFormed(t, threshold, k - 1);
      var ts := Tokens(t)[..k];
      assert ts[..k - 1] == Tokens(t)[..k - 1];
      var tok := TokenAt(t, k - 1);
      var more := Commands(tok, threshold);
      var before := Render(ts[..k - 1], threshold);
      assert ts[k - 1] == tok;
      assert Annotate(t, threshold, k - 1) == Ok(before);
      StepWellFormed(t, threshold, k - 1);
      assert Step(t, k - 1, threshold) == Ok(more);
      assert Render(ts, threshold) == before + more;
    }
  }

  /**
    * The body of the loop for row `i`: reads the row's cells in the order
    * the source does and, when the token passes the filter, draws its box
    * and then its label on `annotated`.  Returns whether a box was drawn, or
    * the `IndexError` the row raised (before anything was drawn).
    */
  method DrawRow(annotated: Canvas, data: TokenTable, i: nat, threshold: real) returns (drawn: Result<bool, Failure>)
    modifies annotated
    ensures drawn.Err? <==> Step(data, i, threshold).Err?
    ensures drawn.Err? ==> drawn.error == Step(data, i, threshold).error &&
                           annotated.commands == old(annotated.commands)
    ensures drawn.Ok? ==> annotated.commands == old(annotated.commands) + Step(data, i, threshold).value &&
                          |Step(data, i, threshold).value| == if drawn.value then 2 else 0
  {
    var textCell := Cell(data.text, i, Some(""));
    if textCell.None? {
      return Err(IndexOutOfRange(TextColumn, i));
    }
    var textI := Strip(match textCell.value case None => "" case Some(s) => s);
    var confCell := Cell(data.conf, i, Parsed(UnparsableConfidence));
    if confCell.None? {
      return Err(IndexOutOfRange(ConfColumn, i));
    }
    var conf := Confidence(confCell.value);
    ghost var probe := Token(textCell.value, confCell.value, 0, 0, 0, 0);
    assert TokenText(probe) == textI && Confidence(probe.conf) == conf;
    if !(textI != "" && conf >= threshold) {
      assert Step(data, i, threshold) == Ok([]);
      return Ok(false);
    }
    var x := Cell(data.left, i, 0);
    if x.None? {
      return Err(IndexOutOfRange(LeftColumn, i));
    }
    var y := Cell(data.top, i, 0);
    if y.None? {
      return Err(IndexOutOfRange(TopColumn, i));
    }
    var w := Cell(data.width, i, 0);
    if w.None? {
      return Err(IndexOutOfRange(WidthColumn, i));
    }
    var h := Cell(data.height, i, 0);
    if h.None? {
      return Err(IndexOutOfRange(HeightColumn, i));
    }
    ghost var tok := Token(textCell.value, confCell.value, x.value, y.value, w.value, h.value);
    assert Step(data, i, threshold) == Ok([Box(tok), Label(tok)]);
    annotated.Rectangle(x.value, y.value, x.value + w.value, y.value + h.value, BoxColor, BoxThickness);
    annotated.PutText(textI[..Min(LabelMaxLength, |textI|)], x.value, Max(0, y.value - LabelLift),
                      LabelScale, LabelColor, LabelThickness);
    assert TokenText(tok) == textI;
    assert annotated.commands == old(annotated.commands) + [Box(tok)] + [Label(tok)];
    return Ok(true);
  }

  /** What the whole loop draws on a well-formed table, and how many commands that is. */
  lemma WellFormedOutcome(t: TokenTable, threshold: real)
    ensures WellFormed(t) ==> Annotate(t, threshold, RowCount(t)) == Ok(Render(Tokens(t), threshold))
    ensures WellFormed(t) ==> |Render(Tokens(t), threshold)| == 2 * |Survivors(Tokens(t), threshold)|
  {
    if WellFormed(t) {
      AnnotateWellFormed(t, threshold, RowCount(t));
      assert Tokens(t)[..RowCount(t)] == Tokens(t);
      RenderShape(Tokens(t), threshold);
    }
  }

  /**
    * `draw_bounding_boxes` on the engine's table `data`: either it raises
    * the `IndexError` of the loop, or it returns a copy of `img` with one
    * box and one label drawn per kept row, in row order, and the number of
    * boxes, which is at most the number of rows.  A table without `level`
    * has no rows and draws nothing.
    */
  method DrawBoundingBoxes(img: Image, data: TokenTable, threshold: real) returns (r: Result<Drawn, Failure>)
    ensures r.Err? <==> Annotate(data, threshold, RowCount(data)).Err?
    ensures r.Err? ==> r.error == Annotate(data, threshold, RowCount(data)).error
    ensures r.Ok? ==> r.value.annotated.base == img &&
                      Annotate(data, threshold, RowCount(data)) == Ok(r.value.annotated.commands)
    ensures r.Ok? ==> 2 * r.value.count == |r.value.annotated.commands| && r.value.count <= RowCount(data)
    ensures WellFormed(data) ==>
              r.Ok? && r.value.annotated.commands == Render(Tokens(data), threshold) &&
              r.value.count == |Survivors(Tokens(data), threshold)|
    ensures RowCount(data) == 0 ==> r.Ok? && r.value.count == 0 && r.value.annotated.commands == []
    ensures r.Ok? ==> fresh(r.value.annotated)
  {
    WellFormedOutcome(data, threshold);
    var annotated := new Canvas.Copy(img);
    var n := RowCount(data);
    var count := 0;
    for i := 0 to n
      invariant Annotate(data, threshold, i) == Ok(annotated.commands)
      invariant 2 * count == |annotated.commands| && count <= i
      invariant annotated.base == img
    {
      var drawn := DrawRow(annotated, data, i, threshold);
      if drawn.Err? {
        AnnotateErrorPersists(data, threshold, i + 1, n);
        return Err(drawn.error);
      }
      if drawn.value {
        count := count + 1;
      }
    }
    r := Ok(Drawn(annotated, count));
  }
}
