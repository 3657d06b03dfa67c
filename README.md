# Student-record API (Gin + GORM), modelled in Dafny

The service keeps student records ("alunos": a name, a CPF and an RG) in a
relational table and exposes them over HTTP: list, create, fetch by key,
fetch by CPF, patch, delete, plus a greeting endpoint. This project models
two parts of it:

- the record validator (`models/aluno.go`): the `validate:` struct tags and
  `ValidaDados`. Each tag is kept twice: as the text written in the source
  (`Models.TagText`), and as the rules that text declares
  (`Models.DeclaredRules`). The validator receives a tag's rules only when Go
  can unquote the tag text (`Models.Unquotes`). The rules are proved equal to
  plain predicates: `NomeValido`, `CpfValido` and `RgValido`.
- the handlers (`controllers/controller.go`), as methods over a store class
  (`Database.Store`). The class holds the live rows as a `map<nat, Aluno>`
  and the next primary key. Each GORM call the handlers make is one method
  of the store.

The handlers model the program as written. They use `Models.ValidaDados`,
which checks only the CPF and the RG (first finding below). The corrected
validator, `Models.ValidaDadosCorrigido`, and the properties the fix would
restore are stated beside it.

Files:

- `wrappers.dfy`: `Option` and `Outcome`.
- `models.dfy`: the record, the tag texts and rules, both validators, and lemmas about them.
- `database.dfy`: the store and its GORM operations (`Create`, `First`,
  `Where(...).First`, `Find`, `Delete`, `UpdateColumns`).
- `controllers.dfy`: the handlers, and the decoding of a JSON body over a struct.
- `scenarios.dfy`: the request sequences of `main_test.go` and a few more,
  written as client methods. Each is proved from the handlers' contracts alone.

Points where the model makes the code's behaviour explicit:

- `len=` is measured here in bytes (`Models.ByteLen`). Whether validator.v2
  counts bytes or characters makes no difference for these tags: once the
  ASCII-only regexp holds, the two counts are equal (`Models.DocumentTagIff`).
- The name is never checked, and any name passes, including `""` (first finding).
- `Where(&Aluno{CPF: cpf})` drops zero-valued fields, so an empty `cpf` matches
  every row (`Database.MatchesCpf`). `First` returns the matching row with the
  smallest key.
- CPFs are not unique. Fetching by CPF right after a create returns the new
  record only when no older record has that CPF (`Scenarios.CreateThenFetchByCpf`).
- `UpdateColumns` with a struct writes only non-zero fields. A record the
  program accepted always has a non-empty CPF and RG, so both are written.
  An empty name is not written (`Database.WithNonZeroColumnsOfAccepted`).
- `EditaAluno` writes to the row under the merged record's own key. That key
  comes from the loaded row, or from an `"ID"` key in the body. Key 0 (no row
  under `id`, or `"ID":0` in the body) makes GORM refuse the update, yet the
  response is still 200 with the merged record.
- Keys come from a counter that only grows, so a deleted key is never handed
  out again (`Scenarios.DeleteThenCreate`).
- Validation failures carry the set of fields that broke a rule. The message
  text is not modelled. Whether it names only the first failing field or all
  of them depends on `validator.v2`, which is not part of this model.

## Model

| member | source | states |
|---|---|---|
| `Models.MatchesAnchoredStarIff` | models/aluno.go:10-12 | the anchored pattern `^[C]*$` matches a string exactly when every character is in class C |
| `Models.ByteLenBounds` | models/aluno.go:11-12 | a string's byte length is at least its character count, and equals it exactly when every character is ASCII |
| `Models.UnquotesSkip` | models/aluno.go:10-12 | characters before the first backslash do not affect whether a tag text unquotes |
| `Models.BadEscapeFails` | models/aluno.go:10 | a backslash followed by a character that starts no Go escape makes the tag text fail to unquote |
| `Models.OneEscapeUnquotes` | models/aluno.go:10 | a text whose one backslash starts a valid escape unquotes |
| `Models.NomeTagUnread` | models/aluno.go:10 | the name's tag text, with its `\s`, does not unquote, so the validator receives no rule for the name |
| `Models.CpfTagRead` | models/aluno.go:11 | the CPF tag text unquotes, so the validator receives `len=14` and `regexp=^[0-9.-]*$` |
| `Models.RgTagRead` | models/aluno.go:12 | the RG tag text unquotes, so the validator receives `len=12` and `regexp=^[0-9.-]*$` |
| `Models.FixedNomeTagRead` | models/aluno.go:10 | with the backslash escaped, the name's tag unquotes and its declared rules reach the validator |
| `Models.DocumentTagIff` | models/aluno.go:11-12 | `len=n` plus `regexp=^[0-9.-]*$` holds exactly when the string has n characters, each a digit, `.` or `-` |
| `Models.NomeRulesIff` | models/aluno.go:10 | the name's declared rules (`nonzero`, `^[a-zA-Z\s]*$`) hold exactly when the name is non-empty and all ASCII letters or space, tab, newline, form feed, carriage return |
| `Models.CpfRulesIff` | models/aluno.go:11 | the CPF rules hold exactly when the CPF has 14 characters from `[0-9.-]` |
| `Models.RgRulesIff` | models/aluno.go:12 | the RG rules hold exactly when the RG has 12 characters from `[0-9.-]` |
| `Models.TagsIff` | models/aluno.go:10-12 | under the tags as written, every name passes, and the CPF and RG pass exactly when they are valid |
| `Models.FixedTagsIff` | models/aluno.go:10-12 | under the escaped tags, each field passes exactly when it is valid |
| `Models.ValidaDados` | models/aluno.go:16-21 | no error exactly when the CPF and RG are valid; an error names a non-empty set of fields, never the name, and contains the CPF or the RG exactly when that one is invalid |
| `Models.ValidaDadosCorrigido` | models/aluno.go:10-21 | with the name's tag escaped: no error exactly when all three fields are valid; an error contains each field exactly when that field is invalid |
| `Models.ValidaDadosIgnoresId` | models/aluno.go:8-21 | neither verdict depends on the primary key |
| `Models.NomeNeverChecked` | models/aluno.go:10 | changing the name never changes the program's verdict |
| `Models.DocumentosNonZero` | models/aluno.go:11-12 | a record the program accepts has a non-empty CPF and RG |
| `Models.TestRecordsValid` | main_test.go:28 | the test fixture and the edit test's record (main_test.go line 112) both pass validation |
| `Models.DigitInNomeAccepted` | models/aluno.go:10 | the name "A1uno" passes the program's validator; the corrected one rejects it and blames only the name |
| `Models.EmptyNomeAccepted` | models/aluno.go:10 | an empty name passes the program's validator, and fails the corrected one |
| `Models.ShortCpfRejected` | models/aluno.go:11 | a 13-character CPF is rejected, and only the CPF is blamed |
| `Models.BlamedExactly` | models/aluno.go:10-21 | under the corrected validator, when exactly one field is invalid, the error blames that field alone |
| `Database.WithNonZeroColumnsOfAccepted` | controllers/controller.go:136-142 | writing an accepted record over the row with its key writes its CPF and RG, and its name unless the name is empty; the row then has a valid CPF and RG |
| `Database.WithNonZeroColumnsOfValid` | controllers/controller.go:136-142 | under the corrected validator, writing a validated record over the row with its key yields exactly that record |
| `Database.Store.Create` | controllers/controller.go:70 | the record is stored under a fresh positive key, taken from the counter and larger than every existing key; the counter moves past it; the returned record is the input with that key; no other row changes |
| `Database.Store.First` | controllers/controller.go:86 | finds a row exactly when the key is live, and returns that row |
| `Database.Store.FirstWhereCpf` | controllers/controller.go:158 | finds nothing exactly when no row matches the CPF condition; otherwise returns the matching row with the smallest key |
| `Database.Store.Find` | controllers/controller.go:19-20 | returns every live row exactly once, in some order |
| `Database.Store.Delete` | controllers/controller.go:108 | removes the row with that key, if any; every other row and the key counter are unchanged |
| `Database.Store.UpdateColumns` | controllers/controller.go:142 | a live key gets its non-zero columns overwritten; a key with no row, including key 0, leaves the table unchanged |
| `Controllers.OverlayMarshal` | main_test.go:112-115 | decoding a marshalled record over any struct yields that record, key included |
| `Controllers.OverlayNoKeys` | controllers/controller.go:126-129 | a body with no keys leaves the loaded record as it was |
| `Controllers.GreetingRoundTrip` | controllers/controller.go:41-43 | the name can be read back from its greeting `"E ai " + nome + ", tudo beleza?"` |
| `Controllers.GreetingInjective` | controllers/controller.go:41-43 | different names never produce the same greeting |
| `Controllers.ExibePaginaIndex` | controllers/controller.go:172-178 | 200 with the `index.html` template and every live record, each once |
| `Controllers.Saudacao` | controllers/controller.go:32-44 | always 200; for `"index"`, the index page with every record; for any other name, the key "API diz" with the greeting from which that name reads back |
| `Controllers.ExibeTodosAlunos` | controllers/controller.go:18-22 | 200 with every live record, each once |
| `Controllers.BuscaAlunoPorID` | controllers/controller.go:83-95 | 404 "Aluno não encontrado" exactly when no record has that key; otherwise 200 with exactly the stored record |
| `Controllers.BuscaAlunoPorCPF` | controllers/controller.go:155-167 | 404 exactly when no record matches; otherwise 200 with the oldest matching record, whose CPF equals a non-empty argument |
| `Controllers.CriaNovoAluno` | controllers/controller.go:56-72 | a malformed body, or a record whose CPF or RG is invalid, gives 400 and leaves the table unchanged; otherwise the record is stored under a fresh key from the counter, larger than all others, and returned with it, and no other row changes; a table whose CPFs and RGs are valid stays so |
| `Controllers.DeletaAluno` | controllers/controller.go:105-110 | always 200 "Aluno deletado com sucesso"; only the row with that key is removed; the counter is unchanged |
| `Controllers.EditaAluno` | controllers/controller.go:123-144 | the stored record (or a zero struct) with the body over it is validated; a malformed body or an invalid merged record gives 400 and no change; otherwise 200 with the merged record, and the row under the merged record's key gets its non-empty fields, or nothing changes when that key has no row; without an `"ID"` in the body the merged key is `id` when it is live, else 0 |
| `Scenarios.CriarAlunoMock` | main_test.go:27-31 | the fixture is stored under a fresh key, nothing else changes |
| `Scenarios.GreetBarbara` | main_test.go:40-50 | `GET /Barbara` answers 200 with "API diz" mapped to "E ai Barbara, tudo beleza?" |
| `Scenarios.CreateThenFetchById` | main_test.go:76-92 | a record created through the handler is fetched back by its key with identical contents |
| `Scenarios.CreateThenFetchByCpf` | main_test.go:64-74 | fetching by CPF after a create answers 200 with a record of that CPF, and that record is the created one exactly when no older record shares the CPF |
| `Scenarios.EditMock` | main_test.go:106-123 | the edit test's marshalled body carries `"ID":0`: the answer is 200 with the new values under key 0, and the table holds the fixture unchanged |
| `Scenarios.EditMockWithoutKey` | main_test.go:106-123 | the same edit with a body of only the three fields: 200 with the new values under the fixture's key, and the row holds exactly them |
| `Scenarios.EditEmptyNome` | controllers/controller.go:123-144 | patching the fixture's name to `""` answers 200 with the empty name, while the row keeps the old name |
| `Scenarios.DeleteThenCreate` | controllers/controller.go:56-110 | after a live key is deleted, the next create gets a different key |
| `Scenarios.DeleteTwice` | main_test.go:94-104 | deleting a key twice answers the same both times, and leaves the table as one delete does |
| `Scenarios.FetchAfterDelete` | controllers/controller.go:105-110 | after a delete, fetching that key answers 404 |

## Findings

| source | as written | input that shows it | evidently intended | confidence | as-written member | corrected member |
|---|---|---|---|---|---|---|
| models/aluno.go:10 | the tag `validate:"nonzero, regexp=^[a-zA-Z\s]*$"` sits in a raw string literal, and `\s` is not a Go escape; `reflect.StructTag.Get` cannot unquote the value and returns `""`, so the validator applies no rule to the name | POST `{"nome":"A1uno","cpf":"123.456.789-10","rg":"12.345.678-9"}` is stored with 200; so is a body with no `"nome"` | the name is required and limited to ASCII letters and whitespace; writing `\\s` in the tag achieves it | high; not executed | `Models.DigitInNomeAccepted` | `Models.ValidaDadosCorrigido` |
| controllers/controller.go:136-143 | because the name is unchecked, an edit may empty it; `UpdateColumns` skips the empty field but the handler answers with the merged record | PATCH `{"nome":""}` on the fixture: 200 with `"nome":""`, and the row keeps "Aluno Teste" | a 200 answer shows the row as stored; under the corrected validator an accepted record has no empty field and is written whole | high; not executed | `Scenarios.EditEmptyNome` | `Database.WithNonZeroColumnsOfValid` |
| main_test.go:112-115 | the edit test marshals a whole `models.Aluno`, which also writes `"ID":0`; decoding it zeroes the loaded key, GORM refuses the keyless update, and the test still passes because it checks only the response's three fields | `TestEditarAluno` as written: 200 with key 0, and the row still holds "Aluno Teste" | the test edits the fixture's row: its body carries only the three fields | high; not executed | `Scenarios.EditMock` | `Scenarios.EditMockWithoutKey` |

## Left out

- Routing (`routes/routes.go`): route registration, static assets, API documentation and server start-up. Handlers are called with their path parameters already extracted.
- `ExibePagina404`: it renders a fixed template with status 404 and has no logic. Template rendering itself is left out: `Html` carries the template name and its data.
- JSON encoding of responses: a response body is a datatype value, not text. So the exact bytes `{"API diz":"E ai Barbara, tudo beleza?"}` are not modelled, only the key and the value.
- JSON decoding: `ShouldBindJSON` is modelled by its outcome. It either fails with an opaque detail string, or yields the optional `ID`/`nome`/`cpf`/`rg` values the body carried. The `CreatedAt`, `UpdatedAt` and `DeletedAt` keys a body may also carry are not modelled.
- Controllers.CriaNovoAluno: it requires a body without a non-zero `"ID"`. An insert under a key the caller chose depends on the database's key sequence and on soft-deleted rows, and neither is part of this model.
- Database.Store.Create: it requires a record without a key, for the same reason.
- Models.Unquotes: it checks the character after each backslash, but not the digits that a numeric escape (`\x`, `\u`, `\U`, octal) must be followed by. An unescaped quote or a raw newline inside a tag value, which `strconv.Unquote` also rejects, is not modelled either. No tag of the record uses any of these.
- Store failures: errors that GORM reports (and the handlers ignore) are not modelled. Every insert succeeds, and every update and delete affects at most the row with the given key.
- Path-to-integer conversion: path keys are natural numbers. A non-numeric `id` segment, which GORM would pass on as SQL, is left out.
- `gorm.Model` timestamps and the soft-delete column: a deleted row leaves the live table. The counter never goes back, so its key is not handed out again.
- The text of validation errors from `validator.v2`: only the set of failing fields is modelled.
- Concurrency: the shared database handle is used by one request at a time.
