/** The processing block of the dashboard: normalise the SMS column, extract the
    amounts, keep or drop rows, label them with the classifier and tag their type. */
module Pipeline {
  import opened Results
  import opened Text
  import opened Amounts
  import opened Tagger

  /** A cell of the uploaded SMS column: some text, or missing (NaN). */
  datatype Cell = Present(s: string) | Missing

  /** `astype(str)`: a missing cell becomes the text "nan". */
  function AsText(c: Cell): string {
    match c
    case Present(s) => s
    case Missing => "nan"
  }

  /** One cell of the SMS column after lower-casing and stripping. */
  function Normalise(c: Cell): string {
    Strip(Lower(AsText(c)))
  }

  /** Normalising is idempotent: a normalised text has no capital letter and no
      surrounding whitespace, so lower-casing it again (as the tagger does) and
      stripping it again change nothing. */
  lemma NormaliseIdempotent(c: Cell)
    ensures Lower(Normalise(c)) == Normalise(c)
    ensures Normalise(Present(Normalise(c))) == Normalise(c)
  {
    var l := Lower(AsText(c));
    LowerIdempotent(AsText(c));
    LowerOfStrip(l);
    StripStripped(Strip(l));
  }

  /** The SMS column after normalisation. */
  function Column(cells: seq<Cell>): seq<string> {
    seq(|cells|, i requires 0 <= i < |cells| => Normalise(cells[i]))
  }

  /** A function from message text to amount, as handed to `Series.apply`. */
  type Extractor = string -> Result<Option<real>, Error>

  /** `Series.apply(extract)` row by row: every row's amount, or the first failing
      conversion, which aborts the whole column. */
  function ExtractAll(extract: Extractor, texts: seq<string>): (r: Result<seq<Option<real>>, Error>)
    ensures r.Ok? ==>
      |r.value| == |texts| && forall i :: 0 <= i < |texts| ==> extract(texts[i]) == Ok(r.value[i])
    ensures r.Err? ==>
      exists i :: 0 <= i < |texts| && extract(texts[i]) == Err(r.error)
        && forall j :: 0 <= j < i ==> extract(texts[j]).Ok?
  {
    if texts == [] then Ok([])
    else
      var n := |texts| - 1;
      match ExtractAll(extract, texts[..n])
      case Err(e) => Err(e)
      case Ok(amounts) =>
        match extract(texts[n])
        case Err(e) => Err(e)
        case Ok(v) => Ok(amounts + [v])
  }

  /** Once a prefix of the column fails, the whole column fails with that error. */
  lemma {:induction false} ExtractAllStops(extract: Extractor, texts: seq<string>, n: nat)
    requires n <= |texts|
    requires ExtractAll(extract, texts[..n]).Err?
    ensures ExtractAll(extract, texts) == ExtractAll(extract, texts[..n])
    decreases |texts|
  {
    if n == |texts| {
      assert texts[..n] == texts;
    } else {
      var m := |texts| - 1;
      assert texts[..m][..n] == texts[..n];
      ExtractAllStops(extract, texts[..m], n);
    }
  }

  /** A row after the keep/drop step: its normalised text and its amount. */
  datatype Row = Row(sms: string, amount: real)

  /** No amount was found in any row (vacuously so for an empty column). */
  predicate NoneFound(amounts: seq<Option<real>>) {
    forall i :: 0 <= i < |amounts| ==> amounts[i].None?
  }

  /** The positions of the rows that carry an amount, in increasing order. */
  function KeptIndices(amounts: seq<Option<real>>): (ks: seq<nat>)
    ensures forall j :: 0 <= j < |ks| ==> ks[j] < |amounts| && amounts[ks[j]].Some?
    ensures forall j, k :: 0 <= j < k < |ks| ==> ks[j] < ks[k]
    ensures forall i :: 0 <= i < |amounts| && amounts[i].Some? ==> i in ks
  {
    if amounts == [] then []
    else
      var n := |amounts| - 1;
      KeptIndices(amounts[..n]) + (if amounts[n].Some? then [n] else [])
  }

  /** `dropna(subset=["Amount"])`: the rows that carry an amount, in order. */
  function DropMissing(texts: seq<string>, amounts: seq<Option<real>>): (rows: seq<Row>)
    requires |texts| == |amounts|
    ensures |rows| == |KeptIndices(amounts)|
    ensures forall j :: 0 <= j < |rows| ==>
      var i := KeptIndices(amounts)[j]; rows[j] == Row(texts[i], amounts[i].value)
  {
    if texts == [] then []
    else
      var n := |texts| - 1;
      DropMissing(texts[..n], amounts[..n])
        + (if amounts[n].Some? then [Row(texts[n], amounts[n].value)] else [])
  }

  /** Every row kept, with amount 0. */
  function ZeroFilled(texts: seq<string>): seq<Row> {
    seq(|texts|, i requires 0 <= i < |texts| => Row(texts[i], 0.0))
  }

  /** The keep/drop rule: if no row has an amount, keep them all with amount 0;
      otherwise drop the rows without one. */
  function KeepOrDrop(texts: seq<string>, amounts: seq<Option<real>>): seq<Row>
    requires |texts| == |amounts|
  {
    if NoneFound(amounts) then ZeroFilled(texts) else DropMissing(texts, amounts)
  }

  /** The text column of the kept rows, as handed to the classifier. */
  function TextsOf(rows: seq<Row>): seq<string> {
    seq(|rows|, j requires 0 <= j < |rows| => rows[j].sms)
  }

  /** A fully analysed row: text, amount, predicted category and type. */
  datatype Transaction = Transaction(sms: string, amount: real, category: string, kind: TxnType)

  /** The kept rows with the labels beside them and the type of each text. */
  function Tagged(rows: seq<Row>, labels: seq<string>): seq<Transaction>
    requires |labels| == |rows|
  {
    seq(|rows|, j requires 0 <= j < |rows| =>
      Transaction(rows[j].sms, rows[j].amount, labels[j], DetectType(rows[j].sms)))
  }

  /** One classifier call on the kept texts; assigning its labels as a column fails
      unless there is one per row. */
  function Classified(rows: seq<Row>, classify: seq<string> -> seq<string>): Result<seq<Transaction>, Error> {
    var labels := classify(TextsOf(rows));
    if |labels| != |rows| then Err(LengthMismatch(|labels|, |rows|))
    else Ok(Tagged(rows, labels))
  }

  /** The processing block for a given amount extractor. */
  function AnalysisWith(extract: Extractor, cells: seq<Cell>, classify: seq<string> -> seq<string>): Result<seq<Transaction>, Error> {
    var texts := Column(cells);
    match ExtractAll(extract, texts)
    case Err(e) => Err(e)
    case Ok(amounts) => Classified(KeepOrDrop(texts, amounts), classify)
  }

  /** The processing block of the dashboard: `extract_amount` applied to every row,
      and the classifier (vectoriser and model composed) called once on the texts
      of the kept rows. */
  function Analysis(cells: seq<Cell>, classify: seq<string> -> seq<string>): Result<seq<Transaction>, Error> {
    AnalysisWith(Extract, cells, classify)
  }

  /** `Series.apply` of a text function to the SMS column, one cell at a time. */
  method MapCells(f: Cell -> string, cells: seq<Cell>) returns (texts: seq<string>)
    ensures |texts| == |cells| && forall i :: 0 <= i < |cells| ==> texts[i] == f(cells[i])
  {
    texts := [];
    for i := 0 to |cells|
      invariant |texts| == i
      invariant forall k :: 0 <= k < i ==> texts[k] == f(cells[k])
    {
      texts := texts + [f(cells[i])];
    }
  }

  /** The SMS column is replaced by its lower-cased, stripped text. */
  method NormaliseColumn(cells: seq<Cell>) returns (texts: seq<string>)
    ensures texts == Column(cells)
  {
    texts := MapCells(Normalise, cells);
  }

  /** Apply the extractor to every row; the first failing conversion aborts. */
  method ApplyExtract(extract: Extractor, texts: seq<string>) returns (r: Result<seq<Option<real>>, Error>)
    ensures r == ExtractAll(extract, texts)
  {
    var amounts: seq<Option<real>> := [];
    for i := 0 to |texts|
      invariant ExtractAll(extract, texts[..i]) == Ok(amounts)
    {
      assert texts[..i + 1][..i] == texts[..i];
      match extract(texts[i])
      case Err(e) =>
        ExtractAllStops(extract, texts, i + 1);
        return Err(e);
      case Ok(v) =>
        amounts := amounts + [v];
    }
    assert texts[..|texts|] == texts;
    return Ok(amounts);
  }

  /** Keep every row, with amount 0. */
  method ZeroFillRows(texts: seq<string>) returns (rows: seq<Row>)
    ensures rows == ZeroFilled(texts)
  {
    rows := [];
    for i := 0 to |texts|
      invariant |rows| == i
      invariant forall k :: 0 <= k < i ==> rows[k] == Row(texts[k], 0.0)
    {
      rows := rows + [Row(texts[i], 0.0)];
    }
  }

  /** Drop the rows without an amount. */
  method DropMissingRows(texts: seq<string>, amounts: seq<Option<real>>) returns (rows: seq<Row>)
    requires |texts| == |amounts|
    ensures rows == DropMissing(texts, amounts)
  {
    rows := [];
    for i := 0 to |texts|
      invariant rows == DropMissing(texts[..i], amounts[..i])
    {
      assert texts[..i + 1][..i] == texts[..i];
      assert amounts[..i + 1][..i] == amounts[..i];
      if amounts[i].Some? {
        rows := rows + [Row(texts[i], amounts[i].value)];
      }
    }
    assert texts[..|texts|] == texts;
    assert amounts[..|amounts|] == amounts;
  }

  /** Put the labels beside the rows and tag every row with its type. */
  method TagRows(rows: seq<Row>, labels: seq<string>) returns (txs: seq<Transaction>)
    requires |labels| == |rows|
    ensures txs == Tagged(rows, labels)
  {
    txs := [];
    for j := 0 to |rows|
      invariant |txs| == j
      invariant forall k :: 0 <= k < j ==>
        txs[k] == Transaction(rows[k].sms, rows[k].amount, labels[k], DetectType(rows[k].sms))
    {
      txs := txs + [Transaction(rows[j].sms, rows[j].amount, labels[j], DetectType(rows[j].sms))];
    }
  }

  /** The processing block, stage by stage on the table's columns. */
  method Analyse(cells: seq<Cell>, classify: seq<string> -> seq<string>) returns (r: Result<seq<Transaction>, Error>)
    ensures r == Analysis(cells, classify)
  {
    var texts := NormaliseColumn(cells);
    var extracted := ApplyExtract(Extract, texts);
    if extracted.Err? {
      return Err(extracted.error);
    }
    var rows;
    if NoneFound(extracted.value) {
      rows := ZeroFillRows(texts);
    } else {
      rows := DropMissingRows(texts, extracted.value);
    }
    var labels := classify(TextsOf(rows));
    if |labels| != |rows| {
      return Err(LengthMismatch(|labels|, |rows|));
    }
    var txs := TagRows(rows, labels);
    return Ok(txs);
  }

  /** What the extractor finds in each row, a failed conversion counting as nothing. */
  function Found(extract: Extractor, cells: seq<Cell>): (found: seq<Option<real>>)
    ensures |found| == |cells|
  {
    seq(|cells|, i requires 0 <= i < |cells| =>
      match extract(Normalise(cells[i]))
      case Ok(v) => v
      case Err(_) => None)
  }

  lemma FoundIsExtracted(extract: Extractor, cells: seq<Cell>)
    requires ExtractAll(extract, Column(cells)).Ok?
    ensures ExtractAll(extract, Column(cells)).value == Found(extract, cells)
  {
    var a := ExtractAll(extract, Column(cells)).value;
    forall i | 0 <= i < |cells|
      ensures a[i] == Found(extract, cells)[i]
    {
      assert extract(Column(cells)[i]) == Ok(a[i]);
    }
  }

  /** The block fails exactly when some row's extraction fails, with the error of
      the first such row, provided the classifier returns one label per text. */
  lemma FailsOnFirstBadRow(extract: Extractor, cells: seq<Cell>, classify: seq<string> -> seq<string>)
    requires forall xs :: |classify(xs)| == |xs|
    ensures AnalysisWith(extract, cells, classify).Err? <==>
      exists i :: 0 <= i < |cells| && extract(Normalise(cells[i])).Err?
    ensures AnalysisWith(extract, cells, classify).Err? ==>
      exists i :: 0 <= i < |cells| && extract(Normalise(cells[i])) == Err(AnalysisWith(extract, cells, classify).error)
        && forall j :: 0 <= j < i ==> extract(Normalise(cells[j])).Ok?
  {
    var texts := Column(cells);
    match ExtractAll(extract, texts)
    case Err(e) =>
      FirstBadRow(extract, cells);
    case Ok(amounts) =>
      var rows := KeepOrDrop(texts, amounts);
      assert |classify(TextsOf(rows))| == |TextsOf(rows)|;
      forall i | 0 <= i < |cells|
        ensures extract(Normalise(cells[i])).Ok?
      {
        assert extract(texts[i]) == Ok(amounts[i]);
      }
  }

  /** A failing column fails with the error of its first failing message. */
  lemma FirstBadRow(extract: Extractor, cells: seq<Cell>)
    requires ExtractAll(extract, Column(cells)).Err?
    ensures exists i ::
      && 0 <= i < |cells| && extract(Normalise(cells[i])) == Err(ExtractAll(extract, Column(cells)).error)
      && forall j :: 0 <= j < i ==> extract(Normalise(cells[j])).Ok?
  {
    var texts := Column(cells);
    var e := ExtractAll(extract, texts).error;
    var i :| 0 <= i < |texts| && extract(texts[i]) == Err(e)
             && forall j :: 0 <= j < i ==> extract(texts[j]).Ok?;
    assert extract(Normalise(cells[i])) == Err(e);
    assert forall j :: 0 <= j < i ==> extract(Normalise(cells[j])).Ok? by {
      assert forall j :: 0 <= j < i ==> texts[j] == Normalise(cells[j]);
    }
  }

  /** When no row carries an amount (an empty upload included), every row is
      kept, in order, with amount 0. */
  lemma NoAmountKeepsEveryRow(extract: Extractor, cells: seq<Cell>, classify: seq<string> -> seq<string>)
    requires AnalysisWith(extract, cells, classify).Ok?
    requires NoneFound(Found(extract, cells))
    ensures var out := AnalysisWith(extract, cells, classify).value;
      |out| == |cells| && forall i :: 0 <= i < |cells| ==>
        out[i].sms == Normalise(cells[i]) && out[i].amount == 0.0
  {
    FoundIsExtracted(extract, cells);
  }

  /** When some row carries an amount, exactly the rows that carry one are kept,
      in their original order, with the amount found in them. */
  lemma AmountsKeepTheirRows(extract: Extractor, cells: seq<Cell>, classify: seq<string> -> seq<string>)
    requires AnalysisWith(extract, cells, classify).Ok?
    requires !NoneFound(Found(extract, cells))
    ensures var out := AnalysisWith(extract, cells, classify).value;
      var ks := KeptIndices(Found(extract, cells));
      |out| == |ks| && forall j :: 0 <= j < |out| ==>
        out[j].sms == Normalise(cells[ks[j]]) && Found(extract, cells)[ks[j]] == Some(out[j].amount)
  {
    FoundIsExtracted(extract, cells);
    var texts := Column(cells);
    var rows := DropMissing(texts, Found(extract, cells));
    assert AnalysisWith(extract, cells, classify) == Classified(rows, classify);
  }

  /** Each kept row gets the label the single classifier call gave its position,
      and its own type. */
  lemma RowsAreLabelledAndTagged(extract: Extractor, cells: seq<Cell>, classify: seq<string> -> seq<string>)
    requires AnalysisWith(extract, cells, classify).Ok?
    ensures var out := AnalysisWith(extract, cells, classify).value;
      var labels := classify(seq(|out|, k requires 0 <= k < |out| => out[k].sms));
      |labels| == |out| && forall j :: 0 <= j < |out| ==>
        out[j].category == labels[j] && out[j].kind == DetectType(out[j].sms)
  {
    var texts := Column(cells);
    var rows := KeepOrDrop(texts, ExtractAll(extract, texts).value);
    var out := AnalysisWith(extract, cells, classify).value;
    assert TextsOf(rows) == seq(|out|, k requires 0 <= k < |out| => out[k].sms);
  }

  /** Every amount in the analysed table is non-negative when the extractor never
      yields a negative amount. */
  lemma AmountsNonNegative(extract: Extractor, cells: seq<Cell>, classify: seq<string> -> seq<string>)
    requires forall t :: extract(t).Ok? && extract(t).value.Some? ==> extract(t).value.value >= 0.0
    requires AnalysisWith(extract, cells, classify).Ok?
    ensures var out := AnalysisWith(extract, cells, classify).value;
      forall j :: 0 <= j < |out| ==> out[j].amount >= 0.0
  {
    var texts := Column(cells);
    var amounts := ExtractAll(extract, texts).value;
    if !NoneFound(amounts) {
      var rows := DropMissing(texts, amounts);
      forall j | 0 <= j < |rows|
        ensures rows[j].amount >= 0.0
      {
        var i := KeptIndices(amounts)[j];
        assert extract(texts[i]) == Ok(amounts[i]);
      }
    }
  }

  /** `extract_amount` never yields a negative amount, and fails only on conversion. */
  lemma ExtractIsSound(t: string)
    ensures Extract(t).Ok? && Extract(t).value.Some? ==> Extract(t).value.value >= 0.0
    ensures Extract(t).Err? ==> Extract(t).error.NotANumber?
  {
  }

  /** For the dashboard's extractor: the analysis fails exactly when some row's
      literal does not convert (given one label per text), every failure is a
      conversion failure, and every amount is non-negative. */
  lemma AnalysisFailsOnlyOnConversion(cells: seq<Cell>, classify: seq<string> -> seq<string>)
    requires forall xs :: |classify(xs)| == |xs|
    ensures Analysis(cells, classify).Err? <==>
      exists i :: 0 <= i < |cells| && Extract(Normalise(cells[i])).Err?
    ensures Analysis(cells, classify).Err? ==> Analysis(cells, classify).error.NotANumber?
    ensures Analysis(cells, classify).Ok? ==>
      forall j :: 0 <= j < |Analysis(cells, classify).value| ==> Analysis(cells, classify).value[j].amount >= 0.0
  {
    FailsOnFirstBadRow(Extract, cells, classify);
    if Analysis(cells, classify).Err? {
      var i :| 0 <= i < |cells| && Extract(Normalise(cells[i])) == Err(Analysis(cells, classify).error);
      ExtractIsSound(Normalise(cells[i]));
    } else {
      forall t | true
        ensures Extract(t).Ok? && Extract(t).value.Some? ==> Extract(t).value.value >= 0.0
      {
        ExtractIsSound(t);
      }
      AmountsNonNegative(Extract, cells, classify);
    }
  }
}
