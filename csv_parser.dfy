/**
 * The CSV response classifier: once the body has been split into rows of
 * cells, each row is either a control line (STATUS, MESSAGEID, MESSAGE,
 * DATE, PARAMETER, NEXTPOSITION, DB), the data header, or a data row that
 * is mapped onto the header.
 */
module CsvParser {
  import opened Text
  import opened Values
  import opened Errors
  import opened Types
  import opened Normalize

  /** How many characters of the body are kept as the response excerpt. */
  const EXCERPT_LENGTH: nat := 2048

  // ---------------------------------------------------------------------
  // Row trimming

  /** `_trim_row`: every cell stripped. */
  function TrimRow(row: seq<string>): (r: seq<string>)
    ensures |r| == |row|
    ensures forall i :: 0 <= i < |r| ==> Strip(r[i]) == r[i]
    ensures forall i :: 0 <= i < |r| ==> (r[i] == "" <==> forall j :: 0 <= j < |row[i]| ==> IsSpace(row[i][j]))
  {
    var r := seq(|row|, i requires 0 <= i < |row| => Strip(row[i]));
    forall i | 0 <= i < |r| ensures Strip(r[i]) == r[i] {
      StripIdempotent(row[i]);
    }
    forall i | 0 <= i < |r| ensures r[i] == "" <==> forall j :: 0 <= j < |row[i]| ==> IsSpace(row[i][j]) {
      StripEmptyIff(row[i]);
    }
    r
  }

  /** `any(cell.strip() for cell in row)`. */
  predicate HasContent(row: seq<string>) {
    exists i :: 0 <= i < |row| && Strip(row[i]) != ""
  }

  /** The rows the parser looks at: the non-blank ones, trimmed, in order. */
  function KeptRows(rows: seq<seq<string>>): (kept: seq<seq<string>>)
    ensures |kept| <= |rows|
    decreases |rows|
  {
    if |rows| == 0 then []
    else
      var rest := KeptRows(rows[1..]);
      if HasContent(rows[0]) then [TrimRow(rows[0])] + rest else rest
  }

  /** A kept row has at least one cell, one non-empty cell, and no cell with whitespace at its ends. */
  predicate Trimmed(row: seq<string>) {
    && (exists i :: 0 <= i < |row| && row[i] != "")
    && (forall i :: 0 <= i < |row| ==> Strip(row[i]) == row[i])
  }

  lemma {:induction false} KeptRowsTrimmed(rows: seq<seq<string>>)
    ensures forall k :: 0 <= k < |KeptRows(rows)| ==> Trimmed(KeptRows(rows)[k]) && |KeptRows(rows)[k]| > 0
    decreases |rows|
  {
    if |rows| > 0 {
      KeptRowsTrimmed(rows[1..]);
      if HasContent(rows[0]) {
        var i :| 0 <= i < |rows[0]| && Strip(rows[0][i]) != "";
        var t := TrimRow(rows[0]);
        assert t[i] != "";
        var kept := KeptRows(rows);
        assert kept == [t] + KeptRows(rows[1..]);
        forall k | 0 <= k < |kept| ensures Trimmed(kept[k]) && |kept[k]| > 0 {
          if k > 0 {
            assert kept[k] == KeptRows(rows[1..])[k - 1];
          }
        }
      }
    }
  }

  // ---------------------------------------------------------------------
  // The parameter map

  /** `parameters`: normalised PARAMETER names to their values, in insertion order. */
  type Params = seq<(string, Option<string>)>

  function ParamGet(ps: Params, k: string): (r: Option<Option<string>>)
    ensures r.Some? <==> exists i :: 0 <= i < |ps| && ps[i].0 == k
  {
    if |ps| == 0 then None
    else if ps[|ps| - 1].0 == k then Some(ps[|ps| - 1].1)
    else ParamGet(ps[..|ps| - 1], k)
  }

  /** `parameters[k] = v`: replaces in place when `k` is present, otherwise appends. */
  function ParamPut(ps: Params, k: string, v: Option<string>): (r: Params)
    ensures |r| == |ps| || (|r| == |ps| + 1 && r[|ps|] == (k, v))
    ensures forall i :: 0 <= i < |ps| ==> r[i].0 == ps[i].0
  {
    if exists i :: 0 <= i < |ps| && ps[i].0 == k then
      seq(|ps|, i requires 0 <= i < |ps| => if ps[i].0 == k then (k, v) else ps[i])
    else ps + [(k, v)]
  }

  ghost predicate DistinctNames(ps: Params) {
    forall i, j :: 0 <= i < j < |ps| ==> ps[i].0 != ps[j].0
  }

  lemma {:induction false} ParamGetUnique(ps: Params, k: string, i: int)
    requires DistinctNames(ps) && 0 <= i < |ps| && ps[i].0 == k
    ensures ParamGet(ps, k) == Some(ps[i].1)
    decreases |ps|
  {
    if i < |ps| - 1 {
      ParamGetUnique(ps[..|ps| - 1], k, i);
    }
  }

  /** After `parameters[k] = v` the name reads back `v`, other names read as before, and names stay unique. */
  lemma ParamPutGet(ps: Params, k: string, v: Option<string>, other: string)
    requires DistinctNames(ps)
    ensures DistinctNames(ParamPut(ps, k, v))
    ensures ParamGet(ParamPut(ps, k, v), k) == Some(Some(v).value)
    ensures other != k ==> ParamGet(ParamPut(ps, k, v), other) == ParamGet(ps, other)
  {
    var r := ParamPut(ps, k, v);
    var j :| 0 <= j < |r| && r[j].0 == k;
    ParamGetUnique(r, k, j);
    if other != k {
      if i :| 0 <= i < |ps| && ps[i].0 == other {
        ParamGetUnique(ps, other, i);
        ParamGetUnique(r, other, i);
      } else {
        assert forall i :: 0 <= i < |r| ==> r[i].0 != other;
      }
    }
  }

  // ---------------------------------------------------------------------
  // Data rows

  /** Cells that mark the data header line. */
  const HEADER_MARKERS: set<string> := {"SERIES_CODE", "NAME_OF_TIME_SERIES_J", "NAME_OF_TIME_SERIES"}

  /** `[normalize_key(cell) for cell in row]`. */
  function NormalizeCells(row: seq<string>): (r: seq<string>)
    ensures |r| == |row| && forall i :: 0 <= i < |row| ==> r[i] == NormalizeKey(row[i])
  {
    seq(|row|, i requires 0 <= i < |row| => NormalizeKey(row[i]))
  }

  predicate LooksLikeHeader(cells: seq<string>) {
    exists i :: 0 <= i < |cells| && cells[i] in HEADER_MARKERS
  }

  /** The cell under header column `idx`, or "" when the row is short. */
  function CellAt(row: seq<string>, idx: nat): string {
    if idx < |row| then row[idx] else ""
  }

  /** The data row under the first `n` header columns: later columns of the same name overwrite earlier ones. */
  function MapRowSpec(header: seq<string>, row: seq<string>, n: nat): Dict
    requires n <= |header|
    decreases n
  {
    if n == 0 then []
    else
      var prev := MapRowSpec(header, row, n - 1);
      if header[n - 1] == "" then prev else Set(prev, header[n - 1], VStr(CellAt(row, n - 1)))
  }

  /** A mapped row has one entry per name. */
  lemma {:induction false} MapRowDistinct(header: seq<string>, row: seq<string>, n: nat)
    requires n <= |header|
    ensures DistinctKeys(MapRowSpec(header, row, n))
    decreases n
  {
    if n > 0 {
      MapRowDistinct(header, row, n - 1);
      if header[n - 1] != "" {
        SetGet(MapRowSpec(header, row, n - 1), header[n - 1], VStr(CellAt(row, n - 1)), "");
      }
    }
  }

  /** A mapped row has no entry for the empty name or for a name absent from the header. */
  lemma {:induction false} MapRowKeys(header: seq<string>, row: seq<string>, n: nat)
    requires n <= |header|
    ensures forall k :: k == "" || (forall j :: 0 <= j < n ==> header[j] != k) ==> !HasKey(MapRowSpec(header, row, n), k)
    decreases n
  {
    if n > 0 {
      MapRowKeys(header, row, n - 1);
      MapRowDistinct(header, row, n - 1);
      var prev := MapRowSpec(header, row, n - 1);
      var h := header[n - 1];
      var v := VStr(CellAt(row, n - 1));
      var cur := MapRowSpec(header, row, n);
      assert cur == if h == "" then prev else Set(prev, h, v);
      forall k | k == "" || (forall j :: 0 <= j < n ==> header[j] != k)
        ensures !HasKey(cur, k)
      {
        assert k == "" || forall j :: 0 <= j < n - 1 ==> header[j] != k;
        assert !HasKey(prev, k);
        if h != "" {
          assert h != k;
          SetGet(prev, h, v, k);
        }
      }
    }
  }

  /** A non-empty header name with no later column of the same name maps to the cell of its column. */
  lemma {:induction false} MapRowValueAt(header: seq<string>, row: seq<string>, n: nat, i: nat)
    requires n <= |header| && i < n && header[i] != ""
    requires forall j :: i < j < n ==> header[j] != header[i]
    ensures Get(MapRowSpec(header, row, n), header[i]) == Some(VStr(CellAt(row, i)))
    decreases n
  {
    MapRowGetStep(header, row, n, header[i]);
    if i < n - 1 {
      MapRowValueAt(header, row, n - 1, i);
    }
  }

  /** Looking a name up after column `n - 1`: that column's cell if it bears the name, else the lookup before it. */
  lemma MapRowGetStep(header: seq<string>, row: seq<string>, n: nat, k: string)
    requires 0 < n <= |header|
    ensures Get(MapRowSpec(header, row, n), k)
      == if header[n - 1] != "" && header[n - 1] == k then Some(VStr(CellAt(row, n - 1)))
         else Get(MapRowSpec(header, row, n - 1), k)
  {
    MapRowDistinct(header, row, n - 1);
    if header[n - 1] != "" {
      SetGet(MapRowSpec(header, row, n - 1), header[n - 1], VStr(CellAt(row, n - 1)), k);
    }
  }

  /** Each non-empty header name maps to the cell of its last column, or "" past the end of the row. */
  lemma MapRowValues(header: seq<string>, row: seq<string>, n: nat)
    requires n <= |header|
    ensures forall i :: 0 <= i < n && header[i] != "" && (forall j :: i < j < n ==> header[j] != header[i]) ==>
      Get(MapRowSpec(header, row, n), header[i]) == Some(VStr(CellAt(row, i)))
  {
    forall i | 0 <= i < n && header[i] != "" && (forall j :: i < j < n ==> header[j] != header[i])
      ensures Get(MapRowSpec(header, row, n), header[i]) == Some(VStr(CellAt(row, i)))
    {
      MapRowValueAt(header, row, n, i);
    }
  }

  /** The inner loop of the data branch: `mapped[header] = row[idx] if idx < len(row) else ""`. */
  method MapRow(header: seq<string>, row: seq<string>) returns (mapped: Dict)
    ensures mapped == MapRowSpec(header, row, |header|)
  {
    mapped := [];
    for idx := 0 to |header|
      invariant mapped == MapRowSpec(header, row, idx)
    {
      if header[idx] == "" {
        continue;
      }
      mapped := Set(mapped, header[idx], VStr(if idx < |row| then row[idx] else ""));
    }
  }

  // ---------------------------------------------------------------------
  // The row loop

  /** The loop's variables between rows. */
  datatype CsvState = CsvState(
    status: int,
    messageId: string,
    message: string,
    dateRaw: Option<string>,
    parameters: Params,
    nextPosition: Option<int>,
    db: Option<string>,
    header: Option<seq<string>>,
    rows: seq<Dict>)

  const INITIAL: CsvState := CsvState(0, "", "", None, [], None, None, None, [])

  /** `row[1] if len(row) > 1 and row[1] else None`. */
  function SecondOrNone(row: seq<string>): Option<string> {
    if |row| > 1 && row[1] != "" then Some(row[1]) else None
  }

  /** `row[1] if len(row) > 1 else ""`. */
  function SecondOrEmpty(row: seq<string>): string {
    if |row| > 1 then row[1] else ""
  }

  function IntError(): BojError {
    ValueError("invalid literal for int() with base 10")
  }

  /**
   * One row of the loop; `int()` on a malformed STATUS or NEXTPOSITION
   * raises ValueError. Kept rows are never empty; an empty row is left alone.
   */
  function Step(st: CsvState, row: seq<string>): Result<CsvState> {
    if |row| == 0 then Ok(st)
    else
      var key := NormalizeKey(row[0]);
      if key in CONTROL_KEYS then ControlStep(st, key, row) else DataStep(st, row)
  }

  /** The first cells of the control lines, once normalised. */
  const CONTROL_KEYS: set<string> := {"STATUS", "MESSAGEID", "MESSAGE", "DATE", "PARAMETER", "NEXTPOSITION", "DB"}

  /** A control line: sets the one variable its key names. */
  function ControlStep(st: CsvState, key: string, row: seq<string>): Result<CsvState> {
    if key == "STATUS" then
      match SecondOrNone(row)
      case None => Ok(st.(status := 0))
      case Some(text) =>
        match ParseInt(text)
        case None => Err(IntError())
        case Some(n) => Ok(st.(status := n))
    else if key == "MESSAGEID" then Ok(st.(messageId := SecondOrEmpty(row)))
    else if key == "MESSAGE" then Ok(st.(message := SecondOrEmpty(row)))
    else if key == "DATE" then Ok(st.(dateRaw := SecondOrNone(row)))
    else if key == "PARAMETER" then
      if |row| > 1 then
        var value := if |row| > 2 && row[2] != "" then Some(row[2]) else None;
        Ok(st.(parameters := ParamPut(st.parameters, NormalizeKey(row[1]), value)))
      else Ok(st)
    else if key == "NEXTPOSITION" then
      match SecondOrNone(row)
      case None => Ok(st)
      case Some(text) =>
        match ParseInt(text)
        case None => Err(IntError())
        case Some(n) => Ok(st.(nextPosition := Some(n)))
    else if key == "DB" then Ok(st.(db := SecondOrNone(row)))
    else Ok(st)
  }

  /** A control line leaves the header and the data rows alone. */
  lemma ControlStepKeepsData(st: CsvState, key: string, row: seq<string>)
    ensures var r := ControlStep(st, key, row);
      r.Ok? ==> r.value.header == st.header && r.value.rows == st.rows
  {
  }

  /** A row that is not a control line: the first one naming a header column becomes the header. */
  function DataStep(st: CsvState, row: seq<string>): Result<CsvState> {
    var cells := NormalizeCells(row);
    if st.header.None? && LooksLikeHeader(cells) then Ok(st.(header := Some(cells)))
    else if st.header.Some? then Ok(st.(rows := st.rows + [MapRowSpec(st.header.value, row, |st.header.value|)]))
    else Ok(st)
  }

  /** What the loop does with one row. */
  type StepFn = (CsvState, seq<string>) -> Result<CsvState>

  /** The loop over the first `|rows|` rows; the first error stops it. */
  function FoldWith(rows: seq<seq<string>>, f: StepFn): Result<CsvState>
    decreases |rows|
  {
    if |rows| == 0 then Ok(INITIAL)
    else
      var st :- FoldWith(rows[..|rows| - 1], f);
      f(st, rows[|rows| - 1])
  }

  function Fold(rows: seq<seq<string>>): Result<CsvState> {
    FoldWith(rows, Step)
  }

  function Response(st: CsvState, text: string): (p: ParsedResponse) {
    ParsedResponse(st.status, st.messageId, st.message, st.dateRaw, st.parameters, st.nextPosition,
                   st.rows, st.db, text[..if |text| < EXCERPT_LENGTH then |text| else EXCERPT_LENGTH])
  }

  /** `parse_csv_response` on the rows `csv.reader` produced from `text`. */
  function ParseSpec(tokens: seq<seq<string>>, text: string): Result<ParsedResponse> {
    var st :- Fold(KeptRows(tokens));
    Ok(Response(st, text))
  }

  // ---------------------------------------------------------------------
  // Properties of one step

  /** STATUS: `int(row[1])`, or 0 when the cell is missing or empty; nothing else changes. */
  lemma StatusRow(st: CsvState, row: seq<string>)
    requires |row| > 0 && NormalizeKey(row[0]) == "STATUS"
    ensures var r := Step(st, row);
      && (|row| < 2 || row[1] == "" ==> r == Ok(st.(status := 0)))
      && (|row| >= 2 && row[1] != "" ==>
            r == if ParseInt(row[1]).Some? then Ok(st.(status := ParseInt(row[1]).value)) else Err(IntError()))
  {
  }

  /** NEXTPOSITION with an empty or missing value leaves the state as it was. */
  lemma EmptyNextPositionKeepsState(st: CsvState, row: seq<string>)
    requires |row| > 0 && NormalizeKey(row[0]) == "NEXTPOSITION"
    ensures (|row| < 2 || row[1] == "") ==> Step(st, row) == Ok(st)
    ensures |row| >= 2 && ParseInt(row[1]).Some? ==> Step(st, row) == Ok(st.(nextPosition := ParseInt(row[1])))
  {
    if |row| >= 2 && ParseInt(row[1]).Some? {
      assert row[1] != "";
    }
  }

  /** PARAMETER: the normalised name now maps to the third cell, or to None when it is missing or empty. */
  lemma ParameterRow(st: CsvState, row: seq<string>)
    requires |row| > 1 && NormalizeKey(row[0]) == "PARAMETER"
    requires DistinctNames(st.parameters)
    ensures var r := Step(st, row);
      && r.Ok? && DistinctNames(r.value.parameters)
      && ParamGet(r.value.parameters, NormalizeKey(row[1]))
           == Some(if |row| > 2 && row[2] != "" then Some(row[2]) else None)
      && r.value.(parameters := st.parameters) == st
  {
    var value := if |row| > 2 && row[2] != "" then Some(row[2]) else None;
    ParamPutGet(st.parameters, NormalizeKey(row[1]), value, "");
  }

  /**
   * A non-control row before the header is the header when it names a
   * header column and is otherwise ignored; after the header it becomes a
   * data row.
   */
  lemma DataRow(st: CsvState, row: seq<string>)
    ensures var r := DataStep(st, row);
      && r.Ok?
      && (st.header.None? && LooksLikeHeader(NormalizeCells(row)) ==> r.value == st.(header := Some(NormalizeCells(row))))
      && (st.header.None? && !LooksLikeHeader(NormalizeCells(row)) ==> r.value == st)
      && (st.header.Some? ==> r.value == st.(rows := st.rows + [MapRowSpec(st.header.value, row, |st.header.value|)]))
  {
  }

  /** A step keeps a header once set, and adds data rows only once there is one. */
  lemma StepHeader(st: CsvState, row: seq<string>)
    ensures var r := Step(st, row);
      r.Ok? ==>
        && (st.header.Some? ==> r.value.header == st.header)
        && (r.value.header.None? ==> r.value.rows == st.rows)
  {
    if |row| > 0 {
      var key := NormalizeKey(row[0]);
      if key in CONTROL_KEYS {
        ControlStepKeepsData(st, key, row);
      } else {
        DataRow(st, row);
      }
    }
  }

  /** No data row is kept before a header has been seen, and a header once set never changes. */
  lemma {:induction false} FoldHeaderFirst(rows: seq<seq<string>>, k: nat)
    requires k <= |rows|
    ensures var r := Fold(rows); r.Ok? && r.value.header.None? ==> r.value.rows == []
    ensures var a := Fold(rows[..k]); var b := Fold(rows);
      a.Ok? && b.Ok? && a.value.header.Some? ==> b.value.header == a.value.header
    decreases |rows|
  {
    if k == |rows| {
      assert rows[..k] == rows;
    }
    if |rows| > 0 {
      var n := |rows| - 1;
      var init := rows[..n];
      FoldHeaderFirst(init, if k < |rows| then k else n);
      if k < |rows| {
        assert init[..k] == rows[..k];
      }
      var prev := Fold(init);
      if prev.Ok? {
        assert Fold(rows) == Step(prev.value, rows[n]);
        StepHeader(prev.value, rows[n]);
      }
    }
  }

  /** The excerpt is the body's first 2048 characters. */
  lemma ExcerptIsPrefix(tokens: seq<seq<string>>, text: string)
    ensures var r := ParseSpec(tokens, text);
      r.Ok? ==>
        && |r.value.excerpt| <= EXCERPT_LENGTH && r.value.excerpt <= text
        && (|text| >= EXCERPT_LENGTH ==> |r.value.excerpt| == EXCERPT_LENGTH)
        && (|text| < EXCERPT_LENGTH ==> r.value.excerpt == text)
  {
  }

  // ---------------------------------------------------------------------
  // The method

  lemma FoldStep(rows: seq<seq<string>>, i: nat, f: StepFn, st: CsvState)
    requires i < |rows| && FoldWith(rows[..i], f) == Ok(st)
    ensures FoldWith(rows[..i + 1], f) == f(st, rows[i])
  {
    assert rows[..i + 1][..i] == rows[..i];
  }

  /** The first failing row decides the outcome. */
  lemma {:induction false} FoldErrorSticky(rows: seq<seq<string>>, i: nat, f: StepFn)
    requires i <= |rows| && FoldWith(rows[..i], f).Err?
    ensures FoldWith(rows, f) == FoldWith(rows[..i], f)
    decreases |rows|
  {
    if i == |rows| {
      assert rows[..i] == rows;
    } else {
      var n := |rows| - 1;
      assert rows[..n][..i] == rows[..i];
      FoldErrorSticky(rows[..n], i, f);
    }
  }

  /** `parse_csv_response`: one pass over the kept rows, updating the loop's variables. */
  method ParseCsvResponse(tokens: seq<seq<string>>, text: string) returns (r: Result<ParsedResponse>)
    ensures r == ParseSpec(tokens, text)
  {
    var rows := KeptRows(tokens);
    var st := INITIAL;
    assert rows[..0] == [];
    for i := 0 to |rows|
      invariant FoldWith(rows[..i], Step) == Ok(st)
    {
      FoldStep(rows, i, Step, st);
      var next := Step(st, rows[i]);
      if next.Err? {
        FoldErrorSticky(rows, i + 1, Step);
        return Err(next.error);
      }
      st := next.value;
    }
    assert rows[..|rows|] == rows;
    return Ok(Response(st, text));
  }
}
