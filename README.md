# Daily operations save handler, modelled in Dafny

This project models the save handler `salvar` of a small bakery app. The
handler receives the production form or the closing form. For every
`produto_<id>` field with a positive quantity, it appends one row to the
daily operations table `operacao_diaria`, and then it commits once.

The model has five modules:

- `Wrappers`: the `Option` type, which stands for Python's value-or-`None`.
- `PyStr`: `str.startswith`, and `str.split` with a one-character separator. `Join` is the inverse of `Split`.
- `PyInt`: Python's `int(text)` in base 10. It skips surrounding ASCII whitespace, accepts an optional `+` or `-`, and accepts digits grouped by single underscores. A `ValueError` becomes `None`. `ParseIntCharacterized` states exactly which texts parse and to what, and `ShowInt` (`str(n)`) is the partner of the parse.
- `Form`: `request.form` as the handler sees it. The request body is a sequence of (name, value) pairs that may repeat a name. `Form.View` gives each key once, in first-occurrence order, with its first value. This is the order and value that `for key in request.form` and `request.form[key]` use. `Form.Get` is `request.form.get`.
- `OperacaoDiaria`: the handler itself.
  - `BuildRows` and `Submit` describe, as a value, what one request produces: the rows, or the first product key whose value `int()` rejects.
  - `PendingRows` is the handler's body as a method, proved equal to `Submit`. Its loop, `InsertAll`, is proved equal to `BuildRows`.
  - The class `Ledger` holds the committed table as a `seq<Row>`. `Ledger.Salvar` runs the loop and appends the pending rows only when the loop finished. An exception from `int()` leaves the request before `conn.commit()`, so nothing of that request is kept.

"Today" is an integer day number passed in by the caller, and tomorrow is
`today + 1`.

What the code does, and therefore what the model does:

- `tipo == "producao"` dates the rows tomorrow and fills `produzido`.
- Any other `tipo`, including a missing one, dates the rows today and fills `sobra_real`.
- `vendido` and `enviado_filial` are always 0.
- Zero and negative quantities are dropped silently.
- One unparsable quantity fails the whole request. This includes an empty field, because `int("")` raises.
- Existing rows are never deleted. Resubmitting a form appends the same rows again.
- There is no branch column, and the date rule is fixed in the code.

## Model

| member | source | states |
|---|---|---|
| `PyStr.Split` | app.py:49 | `key.split("_")` always yields at least one piece |
| `PyStr.SplitJoin` | app.py:49 | joining the pieces with the separator gives the key back, and no piece contains the separator |
| `PyStr.SplitHead` | app.py:49 | the first piece is the text before the first separator, or the whole string when there is none |
| `PyStr.SplitAfterPrefix` | app.py:49 | a separator-free prefix followed by the separator splits off as the first piece, and the rest splits independently |
| `PyStr.StartsWith` | app.py:48 | no contract; it is Dafny's prefix test `prefix <= s`, characterized by `PyStr.StartsWithConcat` |
| `PyStr.StartsWithConcat` | app.py:48 | `key.startswith(prefix)` holds exactly when the key is the prefix followed by some rest |
| `PyInt.ParseInt` | app.py:50 | no contract; what it accepts and what it rejects is stated by `PyInt.ParseIntCharacterized` |
| `PyInt.ParseIntCharacterized` | app.py:50 | `int(s)` returns `n` if and only if `s` is optional ASCII whitespace, an optional `+` or `-`, digits with single underscores between them, and optional whitespace, and these spell `n`; any other text raises `ValueError` |
| `PyInt.ParseAccepts` | app.py:50 | every text of that form parses to the signed value of its digits |
| `PyInt.ParseSpells` | app.py:50 | every text that parses has that form and spells the parsed number |
| `OperacaoDiaria.KindOf` | app.py:39 | no contract; that `"producao"` selects production and every other or missing `tipo` selects closing is stated by `OperacaoDiaria.Submit` |
| `OperacaoDiaria.TargetDate` | app.py:39-42 | no contract; the date it picks (`today + 1` for production, `today` otherwise) is stated by `OperacaoDiaria.Submit` |
| `OperacaoDiaria.IsProductKey` | app.py:48 | no contract; that non-`produto_` keys are ignored is proved by `OperacaoDiaria.OnlyProductKeysMatter` |
| `OperacaoDiaria.MakeRow` | app.py:53-64 | the row keeps the product id, the quantity lands in `produzido` or `sobra_real` (their sum is the quantity), and with a positive quantity the row has its kind's layout |
| `OperacaoDiaria.Committed` | app.py:66 | on success the new table is the old table followed by exactly the request's rows; on failure it is the old table |
| `OperacaoDiaria.Ledger.constructor` | app.py:44-45 | the table starts as the rows already committed |
| `PyInt.ParseShowRoundTrip` | app.py:50 | `int(str(n)) == n` for every integer, negative ones included |
| `PyInt.ParseIgnoresSurroundingSpace` | app.py:50 | a whitespace character before or after the text does not change `int()`'s result |
| `PyInt.BlankIsInvalid` | app.py:50 | an empty or all-whitespace value is rejected by `int()` |
| `Form.Get` | app.py:37 | `request.form.get(key)` is present exactly when some field has that name, and then it is a value submitted under it |
| `Form.GetFirst` | app.py:37 | the value `Get` returns is that of the first field named `key`: no earlier field has that name |
| `Form.View` | app.py:47-50 | the keys the loop visits are distinct, every submitted key is visited, each is paired with its first value, and the keys come in the order of their first appearance |
| `OperacaoDiaria.ProductKeySplits` | app.py:48-49 | for a `produto_` key, `split("_")` has at least two pieces, and piece 1 is the text between the first and second underscore |
| `OperacaoDiaria.ProductId` | app.py:49 | the product id contains no underscore, and the key is `"produto_" + id` or starts with `"produto_" + id + "_"` (so the id is empty for `"produto_"`) |
| `OperacaoDiaria.BuildRows` | app.py:47-64 | every row carries the request's date, `vendido = enviado_filial = 0`, and a positive quantity in its kind's column with 0 in the other; a failure names the first form pair whose product value does not parse, every pair before it parsing |
| `OperacaoDiaria.BuildRowsAppend` | app.py:47-64 | the form is processed in order: the outcome of a concatenated form is the first part's failure, else the second's, else the two row lists concatenated |
| `OperacaoDiaria.OnlyProductKeysMatter` | app.py:47-48 | dropping every key that does not start with `produto_` (such as `tipo`) leaves the outcome unchanged |
| `OperacaoDiaria.RowsAreInsertedFields` | app.py:47-64 | the request succeeds if and only if every `produto_` value parses; then the rows are, in form order, exactly one per `produto_` key with a positive quantity, with the id from the key and that quantity, so their number is the number of such keys |
| `OperacaoDiaria.Submit` | app.py:37-64 | with `tipo == "producao"` every row is dated `today + 1` with `produzido > 0` and `sobra_real = 0`; otherwise, `tipo` missing included, every row is dated `today` with `sobra_real > 0` and `produzido = 0`; `vendido` and `enviado_filial` are always 0 |
| `OperacaoDiaria.PendingRows` | app.py:37-64 | reading `tipo`, choosing the date and running the loop returns exactly the outcome `Submit` describes |
| `OperacaoDiaria.InsertAll` | app.py:47-64 | the loop over the form yields exactly the rows `BuildRows` describes for its kind and date, stopping at the first rejected value |
| `OperacaoDiaria.Ledger.Salvar` | app.py:35-69 | the table becomes the old table followed by the request's rows, or stays unchanged when a quantity fails to parse; the old table is always a prefix |
| `OperacaoDiaria.Resubmit` | app.py:47-66 | posting the same form twice through `Salvar` leaves the table as the old table followed by the request's rows twice |
| `OperacaoDiaria.BlankQuantityFailsRequest` | app.py:47-50 | a `produto_` field left empty or blank makes the whole request fail, so none of its rows are saved |

## Left out

- The other routes (`index`, `producao`, `fechamento`, app.py:13-33) and the final redirect (app.py:69): page rendering only.
- The product catalog query (app.py:21, 30): its filtering and ordering run inside the database.
- The psycopg2 connection, the cursor and the SQL text: the table is the sequence of committed rows, and one INSERT is one appended `Row`.
- Errors the database could raise, for example a connection failure, or an id that the `produto_id` column's type rejects: the table's schema is not part of this model. Such an error would also happen before the commit.
- `datetime.now()` and calendar arithmetic: the day is an integer, and `timedelta(days=1)` is `+ 1`.
- The product id is kept as text because the column type is not visible.
- Concurrent requests: each request is modelled as one atomic step.
- PyInt.ParseInt: does not accept non-ASCII decimal digits or Unicode whitespace, which Python's `int()` accepts.
- PyInt.ParseInt: does not model the 4300-digit limit that CPython 3.11 and later impose on `int()`. The limit is configurable and varies by version, so the model accepts numbers of any length.
