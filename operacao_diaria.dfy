/**
 The save handler `salvar`: a submitted production or closing form becomes
 rows appended to the daily operations table `operacao_diaria`.

 The day is an integer ordinal (tomorrow is `today + 1`); the table is the
 sequence of rows committed so far; a request either commits all its rows at
 once or, when a product quantity is not an integer, none of them.
 */
module OperacaoDiaria {
  import opened Wrappers
  import PyStr
  import PyInt
  import Form

  /** Form keys that carry a product quantity start with this text. */
  const ProductPrefix: string := "produto_"

  /** The value of the `tipo` field that selects production. */
  const Producao: string := "producao"

  /** Which column a request fills: production (`produzido`) or anything else (`sobra_real`). */
  datatype Kind = Production | Closing

  /** `tipo == "producao"`; every other value, and a missing field, is a closing. */
  function KindOf(tipo: Option<string>): Kind {
    if tipo == Some(Producao) then Production else Closing
  }

  /** Production is recorded against tomorrow, everything else against today. */
  function TargetDate(kind: Kind, today: int): int {
    if kind == Production then today + 1 else today
  }

  /** One row of `operacao_diaria`. */
  datatype Row = Row(data: int, produtoId: string, produzido: int, vendido: int, enviadoFilial: int, sobraReal: int)

  /** What one request does: rows to commit, or the key whose value `int()` rejected. */
  datatype Outcome = Saved(rows: seq<Row>) | InvalidQuantity(key: string, value: string)

  predicate IsProductKey(key: string) {
    PyStr.StartsWith(key, ProductPrefix)
  }

  /** `"produto_"` is an underscore-free word followed by one underscore. */
  lemma PrefixShape()
    ensures |ProductPrefix| == 8
    ensures ProductPrefix == ProductPrefix[..7] + "_"
    ensures '_' !in ProductPrefix[..7]
  {
  }

  lemma ProductKeySplits(key: string)
    requires IsProductKey(key)
    ensures |PyStr.Split(key, '_')| >= 2
    ensures '_' !in PyStr.Split(key, '_')[1]
    ensures var id := PyStr.Split(key, '_')[1]; key == ProductPrefix + id || ProductPrefix + id + "_" <= key
  {
    PrefixShape();
    var word := ProductPrefix[..7];
    var rest := key[8..];
    assert key == key[..8] + rest;
    assert key == word + ['_'] + rest;
    PyStr.SplitAfterPrefix(word, '_', rest);
    PyStr.SplitHead(rest, '_');
    var id := PyStr.Split(rest, '_')[0];
    assert PyStr.Split(key, '_')[1] == id;
    if id != rest {
      assert rest == id + "_" + rest[|id| + 1..];
      assert key == ProductPrefix + id + "_" + rest[|id| + 1..];
    }
  }

  /**
   `key.split("_")[1]`. The prefix guarantees two pieces, so the index never
   fails; the id is the text between the first and second underscore, or up to
   the end of the key when there is no second one (empty for `"produto_"`).
   */
  function ProductId(key: string): (id: string)
    requires IsProductKey(key)
    ensures '_' !in id
    ensures key == ProductPrefix + id || ProductPrefix + id + "_" <= key
  {
    ProductKeySplits(key);
    PyStr.Split(key, '_')[1]
  }

  /** The INSERT for one product: the quantity goes into `produzido` or `sobra_real`, the rest is 0. */
  function MakeRow(kind: Kind, data: int, produtoId: string, q: int): (r: Row)
    ensures r.produtoId == produtoId
    ensures r.produzido + r.sobraReal == q
    ensures q > 0 ==> RowLayout(kind, data, r)
  {
    match kind
    case Production => Row(data, produtoId, q, 0, 0, 0)
    case Closing => Row(data, produtoId, 0, 0, 0, q)
  }

  /** The shape every inserted row has: the request's date, a positive quantity in its kind's column, zeros elsewhere. */
  predicate RowLayout(kind: Kind, data: int, row: Row) {
    && row.data == data
    && row.vendido == 0
    && row.enviadoFilial == 0
    && (kind == Production ==> row.produzido > 0 && row.sobraReal == 0)
    && (kind == Closing ==> row.sobraReal > 0 && row.produzido == 0)
  }

  /** A pair `int()` does not reject: a non-product key, or a product key whose value is an integer. */
  predicate Parses(field: Form.Field) {
    IsProductKey(field.0) ==> PyInt.ParseInt(field.1).Some?
  }

  /** A pair that yields a row: a product key whose value is a positive integer. */
  predicate Inserts(field: Form.Field) {
    IsProductKey(field.0) && PyInt.ParseInt(field.1).Some? && PyInt.ParseInt(field.1).value > 0
  }

  /** The loop of the handler over the form, in form order, as a value. */
  function BuildRows(kind: Kind, data: int, form: seq<Form.Field>): (r: Outcome)
    ensures r.Saved? ==> forall i :: 0 <= i < |r.rows| ==> RowLayout(kind, data, r.rows[i])
    ensures r.InvalidQuantity? ==>
      exists i :: 0 <= i < |form| && form[i] == (r.key, r.value) && !Parses(form[i]) &&
        forall j :: 0 <= j < i ==> Parses(form[j])
    decreases |form|
  {
    if |form| == 0 then Saved([])
    else
      var (key, value) := form[0];
      var tail := BuildRows(kind, data, form[1..]);
      if !IsProductKey(key) then tail
      else match PyInt.ParseInt(value)
        case None => InvalidQuantity(key, value)
        case Some(q) =>
          if q > 0 && tail.Saved? then Saved([MakeRow(kind, data, ProductId(key), q)] + tail.rows)
          else tail
  }

  /** Running two stretches of the form one after the other: the first failure wins, otherwise the rows concatenate. */
  function Then(first: Outcome, second: Outcome): Outcome {
    match first
    case InvalidQuantity(_, _) => first
    case Saved(a) =>
      match second
      case Saved(b) => Saved(a + b)
      case InvalidQuantity(_, _) => second
  }

  /** The form is processed left to right: rows of earlier keys come first, and the earliest bad value is reported. */
  lemma {:induction false} BuildRowsAppend(kind: Kind, data: int, a: seq<Form.Field>, b: seq<Form.Field>)
    ensures BuildRows(kind, data, a + b) == Then(BuildRows(kind, data, a), BuildRows(kind, data, b))
    decreases |a|
  {
    if |a| > 0 {
      assert (a + b)[0] == a[0];
      assert (a + b)[1..] == a[1..] + b;
      BuildRowsAppend(kind, data, a[1..], b);
    } else {
      assert a + b == b;
    }
  }

  /** The product pairs of the form, in form order. */
  function ProductFields(form: seq<Form.Field>): (p: seq<Form.Field>)
    ensures forall i :: 0 <= i < |p| ==> IsProductKey(p[i].0)
    decreases |form|
  {
    if |form| == 0 then []
    else if IsProductKey(form[0].0) then [form[0]] + ProductFields(form[1..])
    else ProductFields(form[1..])
  }

  /** Only `produto_` keys matter: dropping every other key (such as `tipo`) changes nothing. */
  lemma {:induction false} OnlyProductKeysMatter(kind: Kind, data: int, form: seq<Form.Field>)
    ensures BuildRows(kind, data, form) == BuildRows(kind, data, ProductFields(form))
    decreases |form|
  {
    if |form| > 0 {
      OnlyProductKeysMatter(kind, data, form[1..]);
      if IsProductKey(form[0].0) {
        var p := ProductFields(form);
        assert p[0] == form[0];
        assert p[1..] == ProductFields(form[1..]);
      }
    }
  }

  /** The pairs that yield rows, in form order. */
  function Inserted(form: seq<Form.Field>): (p: seq<Form.Field>)
    ensures forall i :: 0 <= i < |p| ==> Inserts(p[i])
    decreases |form|
  {
    if |form| == 0 then []
    else if Inserts(form[0]) then [form[0]] + Inserted(form[1..])
    else Inserted(form[1..])
  }

  /**
   The request fails exactly when some product value is not an integer.
   Otherwise its rows are, in order, one per product key with a positive
   quantity: the id from the key, the quantity from `int()`.
   */
  lemma {:induction false} RowsAreInsertedFields(kind: Kind, data: int, form: seq<Form.Field>)
    ensures BuildRows(kind, data, form).Saved? <==> forall i :: 0 <= i < |form| ==> Parses(form[i])
    ensures BuildRows(kind, data, form).Saved? ==>
      var rows, ins := BuildRows(kind, data, form).rows, Inserted(form);
      && |rows| == |ins|
      && forall j :: 0 <= j < |rows| ==>
           rows[j] == MakeRow(kind, data, ProductId(ins[j].0), PyInt.ParseInt(ins[j].1).value)
    decreases |form|
  {
    if |form| > 0 {
      RowsAreInsertedFields(kind, data, form[1..]);
      var r, tail := BuildRows(kind, data, form), BuildRows(kind, data, form[1..]);
      if r.Saved? {
        assert Parses(form[0]);
        assert tail.Saved?;
        forall i | 0 <= i < |form| ensures Parses(form[i]) {
          if i > 0 {
            assert form[i] == form[1..][i - 1];
          }
        }
        if Inserts(form[0]) {
          var ins := Inserted(form);
          assert ins[1..] == Inserted(form[1..]);
          assert r.rows == [MakeRow(kind, data, ProductId(form[0].0), PyInt.ParseInt(form[0].1).value)] + tail.rows;
          forall j | 0 <= j < |r.rows|
            ensures r.rows[j] == MakeRow(kind, data, ProductId(ins[j].0), PyInt.ParseInt(ins[j].1).value)
          {
            if j > 0 {
              assert r.rows[j] == tail.rows[j - 1];
              assert ins[j] == Inserted(form[1..])[j - 1];
            }
          }
        }
      } else {
        if Parses(form[0]) {
          assert !tail.Saved?;
          var i :| 0 <= i < |form[1..]| && !Parses(form[1..][i]);
          assert !Parses(form[i + 1]);
        } else {
          assert !Parses(form[0]);
        }
      }
    }
  }

  /**
   What `salvar` does with one submitted form, on the day `today`: the
   outcome of the loop over `request.form` for the kind and date that the
   `tipo` field selects.
   */
  function Submit(fields: seq<Form.Field>, today: int): (r: Outcome)
    ensures r.Saved? ==> forall i :: 0 <= i < |r.rows| ==>
      var row := r.rows[i];
      && row.vendido == 0 && row.enviadoFilial == 0
      && (Form.Get(fields, "tipo") == Some(Producao) ==>
            row.data == today + 1 && row.produzido > 0 && row.sobraReal == 0)
      && (Form.Get(fields, "tipo") != Some(Producao) ==>
            row.data == today && row.sobraReal > 0 && row.produzido == 0)
  {
    var kind := KindOf(Form.Get(fields, "tipo"));
    BuildRows(kind, TargetDate(kind, today), Form.View(fields))
  }

  /** The table after one request: unchanged when it failed, the new rows appended otherwise. */
  function Committed(table: seq<Row>, outcome: Outcome): (r: seq<Row>)
    ensures table <= r
    ensures |r| == |table| + (if outcome.Saved? then |outcome.rows| else 0)
    ensures outcome.Saved? ==> r[|table|..] == outcome.rows
    ensures outcome.InvalidQuantity? ==> r == table
  {
    match outcome
    case Saved(rows) => table + rows
    case InvalidQuantity(_, _) => table
  }

  /** One more pair of the form: the outcome so far, then that pair's own. */
  lemma ExtendPrefix(kind: Kind, data: int, form: seq<Form.Field>, i: nat)
    requires i < |form|
    ensures BuildRows(kind, data, form[..i + 1]) == Then(BuildRows(kind, data, form[..i]), BuildRows(kind, data, [form[i]]))
  {
    assert form[..i + 1] == form[..i] + [form[i]];
    BuildRowsAppend(kind, data, form[..i], [form[i]]);
  }

  /** When every pair before `i` went through, a bad value at `i` is what the whole form reports. */
  lemma StopAt(kind: Kind, data: int, form: seq<Form.Field>, i: nat)
    requires i < |form|
    requires BuildRows(kind, data, form[..i]).Saved? && !Parses(form[i])
    ensures BuildRows(kind, data, form) == InvalidQuantity(form[i].0, form[i].1)
  {
    assert form[..i] + form[i..] == form;
    assert form[i..][0] == form[i];
    BuildRowsAppend(kind, data, form[..i], form[i..]);
  }

  /**
   The body of `salvar`: reads `tipo`, picks the date, and walks the form.
   */
  method PendingRows(fields: seq<Form.Field>, today: int) returns (outcome: Outcome)
    ensures outcome == Submit(fields, today)
  {
    var tipo := Form.Get(fields, "tipo");
    var data := if tipo == Some(Producao) then today + 1 else today;
    outcome := InsertAll(tipo, data, Form.View(fields));
  }

  /**
   The `for key in request.form` loop: collects the rows its INSERTs write
   into the still uncommitted transaction, and stops at the first value
   `int()` rejects.
   */
  method InsertAll(tipo: Option<string>, data: int, form: seq<Form.Field>) returns (outcome: Outcome)
    ensures outcome == BuildRows(KindOf(tipo), data, form)
  {
    var kind := KindOf(tipo);
    var pending: seq<Row> := [];
    var i := 0;
    while i < |form|
      invariant 0 <= i <= |form|
      invariant BuildRows(kind, data, form[..i]) == Saved(pending)
    {
      var (key, value) := form[i];
      ExtendPrefix(kind, data, form, i);
      if PyStr.StartsWith(key, ProductPrefix) {
        var produtoId := ProductId(key);
        var parsed := PyInt.ParseInt(value);
        if parsed.None? {
          StopAt(kind, data, form, i);
          return InvalidQuantity(key, value);
        }
        var quantidade := parsed.value;
        if quantidade > 0 {
          var row;
          if tipo == Some(Producao) {
            row := Row(data, produtoId, quantidade, 0, 0, 0);
          } else {
            row := Row(data, produtoId, 0, 0, 0, quantidade);
          }
          assert BuildRows(kind, data, [form[i]]) == Saved([row]);
          pending := pending + [row];
        } else {
          assert BuildRows(kind, data, [form[i]]) == Saved([]);
        }
      } else {
        assert BuildRows(kind, data, [form[i]]) == Saved([]);
      }
      i := i + 1;
    }
    assert form[..i] == form;
    outcome := Saved(pending);
  }

  /** The `operacao_diaria` table as committed so far. */
  class Ledger {
    var rows: seq<Row>

    constructor (initial: seq<Row>)
      ensures rows == initial
    {
      rows := initial;
    }

    /**
     `salvar`: run the loop, then commit its rows in one step. When `int()`
     raises, the exception leaves before `conn.commit()`, so nothing of the
     request is kept.
     */
    method Salvar(fields: seq<Form.Field>, today: int) returns (outcome: Outcome)
      modifies this
      ensures outcome == Submit(fields, today)
      ensures rows == Committed(old(rows), outcome)
      ensures old(rows) <= rows
    {
      outcome := PendingRows(fields, today);
      if outcome.Saved? {
        rows := rows + outcome.rows;
      }
    }
  }

  /** Posting the same form twice on the same day duplicates its rows; nothing is replaced. */
  method Resubmit(ledger: Ledger, fields: seq<Form.Field>, today: int)
    modifies ledger
    ensures var o := Submit(fields, today);
      ledger.rows == if o.Saved? then old(ledger.rows) + o.rows + o.rows else old(ledger.rows)
  {
    var first := ledger.Salvar(fields, today);
    var second := ledger.Salvar(fields, today);
    assert first == second;
  }

  /** A product field left empty (or blank) fails the whole request, so none of its rows are saved. */
  lemma BlankQuantityFailsRequest(fields: seq<Form.Field>, today: int, i: nat)
    requires i < |Form.View(fields)|
    requires IsProductKey(Form.View(fields)[i].0)
    requires PyInt.AllSpace(Form.View(fields)[i].1)
    ensures Submit(fields, today).InvalidQuantity?
  {
    var form := Form.View(fields);
    var kind := KindOf(Form.Get(fields, "tipo"));
    PyInt.BlankIsInvalid(form[i].1);
    assert !Parses(form[i]);
    RowsAreInsertedFields(kind, TargetDate(kind, today), form);
  }
}
