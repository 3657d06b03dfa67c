/**
 * The HTTP handlers of the student API (controllers/controller.go), each a
 * method over the shared store. A request reaches a handler already routed:
 * path parameters arrive as arguments, and the JSON body arrives as the
 * outcome of decoding it (`Bind`). A response is a status and a body.
 */
module Controllers {
  import opened Wrappers
  import opened Models
  import opened Database

  const StatusOK: nat := 200
  const StatusBadRequest: nat := 400
  const StatusNotFound: nat := 404

  // ---------------------------------------------------------------------------
  // Requests and responses
  // ---------------------------------------------------------------------------

  /**
   * The JSON keys a body may carry that the model keeps; an absent key is
   * `None`. Go's decoder matches keys without regard to case, so `"id"` or
   * `"ID"` reaches the promoted `gorm.Model.ID`.
   */
  datatype Patch = Patch(id: Option<nat>, nome: Option<string>, cpf: Option<string>, rg: Option<string>)

  /** The body with no keys at all. */
  const NoKeys: Patch := Patch(None, None, None, None)

  /** The outcome of `ShouldBindJSON`: a body that would not decode, or the fields it carried. */
  datatype Bind = Malformed(detail: string) | Decoded(patch: Patch)

  /** Why a write was refused with 400. */
  datatype Cause = BindError(detail: string) | Invalid(fields: set<Field>)

  datatype Body =
    | Record(aluno: Aluno)                     // one record as JSON
    | Records(alunos: seq<Aluno>)              // a JSON array of records
    | Message(key: string, text: string)       // gin.H with one string entry
    | Refused(cause: Cause)                    // gin.H{"error": ...}
    | Html(template: string, alunos: seq<Aluno>) // a rendered template and its data

  datatype Response = Response(status: nat, body: Body)

  const NaoEncontrado: Response := Response(StatusNotFound, Message("Not found", "Aluno não encontrado"))
  const Deletado: Response := Response(StatusOK, Message("data", "Aluno deletado com sucesso"))

  /**
   * Decoding a body into a struct that already holds `a`: each key present in
   * the body overwrites its field, each absent key leaves it as it was.
   */
  function Overlay(a: Aluno, p: Patch): Aluno {
    Aluno(p.id.GetOr(a.id), p.nome.GetOr(a.nome), p.cpf.GetOr(a.cpf), p.rg.GetOr(a.rg))
  }

  /**
   * The body `json.Marshal` writes for a record: the promoted `ID` (it has no
   * json tag) and the three tagged fields. The timestamps it also writes are
   * not part of this model.
   */
  function Marshal(a: Aluno): Patch {
    Patch(Some(a.id), Some(a.nome), Some(a.cpf), Some(a.rg))
  }

  /** Decoding a marshalled record over any struct yields that record, key included. */
  lemma OverlayMarshal(base: Aluno, a: Aluno)
    ensures Overlay(base, Marshal(a)) == a
  {
  }

  /** A body without keys leaves the loaded record as it was. */
  lemma OverlayNoKeys(a: Aluno)
    ensures Overlay(a, NoKeys) == a
  {
  }

  /** The record a create request asks for: the body decoded into a zero struct. */
  function Requested(p: Patch): Aluno {
    Overlay(Vazio, p)
  }

  /** The record an edit request validates: the stored row (or a zero struct) with the body over it. */
  function Merged(rows: map<nat, Aluno>, id: nat, p: Patch): Aluno {
    Overlay(if id in rows then rows[id] else Vazio, p)
  }

  /** Every record in the table has a CPF and an RG that the program's validator accepts. */
  ghost predicate AllAccepted(rows: map<nat, Aluno>) {
    forall k :: k in rows ==> DocumentosValidos(rows[k])
  }

  // ---------------------------------------------------------------------------
  // Saudacao
  // ---------------------------------------------------------------------------

  const GreetingPrefix: string := "E ai "
  const GreetingSuffix: string := ", tudo beleza?"

  /** The text of the greeting for `nome`. */
  function Greeting(nome: string): string {
    GreetingPrefix + nome + GreetingSuffix
  }

  /** Reads the name back out of a greeting, if `msg` is one. */
  function GreetedName(msg: string): Option<string> {
    if |msg| >= |GreetingPrefix| + |GreetingSuffix|
       && msg[..|GreetingPrefix|] == GreetingPrefix
       && msg[|msg| - |GreetingSuffix|..] == GreetingSuffix
    then Some(msg[|GreetingPrefix|..|msg| - |GreetingSuffix|])
    else None
  }

  /** The name sits verbatim inside its greeting and can be read back. */
  lemma GreetingRoundTrip(nome: string)
    ensures GreetedName(Greeting(nome)) == Some(nome)
  {
    var msg := Greeting(nome);
    var p, n := |GreetingPrefix|, |nome|;
    assert msg[..p] == GreetingPrefix;
    assert msg[p..p + n] == nome;
    assert msg[p + n..] == GreetingSuffix;
  }

  /** Different names never get the same greeting. */
  lemma GreetingInjective(a: string, b: string)
    requires Greeting(a) == Greeting(b)
    ensures a == b
  {
    GreetingRoundTrip(a);
    GreetingRoundTrip(b);
  }

  /** `ExibePaginaIndex`: the index template, given every record. */
  method ExibePaginaIndex(db: Store) returns (resp: Response)
    requires db.Valid()
    ensures resp.status == StatusOK && resp.body.Html?
    ensures resp.body.template == "index.html" && Lists(resp.body.alunos, db.rows)
  {
    var alunos := db.Find();
    resp := Response(StatusOK, Html("index.html", alunos));
  }

  /**
   * `Saudacao`: greets the name in the path, except that the path segment
   * "index" is the index page and lists every record instead.
   */
  method Saudacao(db: Store, nome: string) returns (resp: Response)
    requires db.Valid()
    ensures resp.status == StatusOK
    ensures nome == "index" ==> resp.body.Html? && resp.body.template == "index.html" && Lists(resp.body.alunos, db.rows)
    ensures nome != "index" ==> resp.body.Message? && resp.body.key == "API diz" && GreetedName(resp.body.text) == Some(nome)
    ensures nome != "index" ==> resp.body.text == Greeting(nome)
  {
    if nome == "index" {
      resp := ExibePaginaIndex(db);
      return;
    }
    GreetingRoundTrip(nome);
    resp := Response(StatusOK, Message("API diz", Greeting(nome)));
  }

  // ---------------------------------------------------------------------------
  // Reading handlers
  // ---------------------------------------------------------------------------

  /** `ExibeTodosAlunos`: 200 with every record. */
  method ExibeTodosAlunos(db: Store) returns (resp: Response)
    requires db.Valid()
    ensures resp.status == StatusOK && resp.body.Records? && Lists(resp.body.alunos, db.rows)
  {
    var alunos := db.Find();
    resp := Response(StatusOK, Records(alunos));
  }

  /** `BuscaAlunoPorID`: the record under `id`, or 404 when there is none. */
  method BuscaAlunoPorID(db: Store, id: nat) returns (resp: Response)
    requires db.Valid()
    ensures resp == NaoEncontrado <==> id !in db.rows
    ensures id in db.rows ==> resp == Response(StatusOK, Record(db.rows[id]))
  {
    var found := db.First(id);
    var aluno := found.GetOr(Vazio);
    if aluno.id == 0 {
      resp := NaoEncontrado;
      return;
    }
    resp := Response(StatusOK, Record(aluno));
  }

  /**
   * `BuscaAlunoPorCPF`: the record with the smallest key among those with
   * that CPF, or 404 when there is none.
   */
  method BuscaAlunoPorCPF(db: Store, cpf: string) returns (resp: Response)
    requires db.Valid()
    ensures resp == NaoEncontrado <==> forall k :: k in db.rows ==> !MatchesCpf(db.rows[k], cpf)
    ensures resp != NaoEncontrado ==> resp.status == StatusOK && resp.body.Record? && IsFirstMatch(db.rows, cpf, resp.body.aluno)
    ensures resp != NaoEncontrado && cpf != "" ==> resp.body.aluno.cpf == cpf
  {
    var found := db.FirstWhereCpf(cpf);
    var aluno := found.GetOr(Vazio);
    if aluno.id == 0 {
      resp := NaoEncontrado;
      return;
    }
    resp := Response(StatusOK, Record(aluno));
  }

  // ---------------------------------------------------------------------------
  // Writing handlers
  // ---------------------------------------------------------------------------

  /**
   * `CriaNovoAluno`: decodes the body, validates it, and only then inserts it
   * under a fresh key. A refused request leaves the table as it was.
   */
  method CriaNovoAluno(db: Store, body: Bind) returns (resp: Response)
    requires db.Valid()
    requires body.Decoded? ==> body.patch.id.GetOr(0) == 0
    modifies db
    ensures db.Valid() && old(db.nextId) <= db.nextId
    ensures AllAccepted(old(db.rows)) ==> AllAccepted(db.rows)
    ensures body.Malformed? ==>
      resp == Response(StatusBadRequest, Refused(BindError(body.detail)))
      && db.rows == old(db.rows) && db.nextId == old(db.nextId)
    ensures body.Decoded? && !DocumentosValidos(Requested(body.patch)) ==>
      resp == Response(StatusBadRequest, Refused(Invalid(ValidaDados(Requested(body.patch)).error)))
      && db.rows == old(db.rows) && db.nextId == old(db.nextId)
    ensures body.Decoded? && DocumentosValidos(Requested(body.patch)) ==>
      resp.status == StatusOK && resp.body.Record?
      && resp.body.aluno == Requested(body.patch).(id := resp.body.aluno.id)
      && 0 < resp.body.aluno.id && resp.body.aluno.id !in old(db.rows)
      && (forall k :: k in old(db.rows) ==> k < resp.body.aluno.id)
      && old(db.nextId) <= resp.body.aluno.id < db.nextId
      && db.rows == old(db.rows)[resp.body.aluno.id := resp.body.aluno]
  {
    var aluno := Vazio;
    match body {
      case Malformed(detail) =>
        resp := Response(StatusBadRequest, Refused(BindError(detail)));
        return;
      case Decoded(patch) =>
        aluno := Overlay(aluno, patch);
    }
    var verdict := ValidaDados(aluno);
    if verdict.Fail? {
      resp := Response(StatusBadRequest, Refused(Invalid(verdict.error)));
      return;
    }
    aluno := db.Create(aluno);
    resp := Response(StatusOK, Record(aluno));
  }

  /** `DeletaAluno`: removes the record under `id` if there is one, and reports success either way. */
  method DeletaAluno(db: Store, id: nat) returns (resp: Response)
    requires db.Valid()
    modifies db
    ensures db.Valid() && db.nextId == old(db.nextId)
    ensures resp == Deletado
    ensures db.rows == old(db.rows) - {id}
    ensures AllAccepted(old(db.rows)) ==> AllAccepted(db.rows)
  {
    db.Delete(id);
    resp := Deletado;
  }

  /**
   * `EditaAluno`: loads the record under `id` (a zero struct when there is
   * none), decodes the body over it, validates the merged record, and hands
   * it to `UpdateColumns`, which writes its non-empty fields into the row
   * under the merged record's own key. The response is the merged record,
   * whatever the update did: key 0 (no row, or an `"ID":0` in the body)
   * changes nothing, and an empty name keeps the stored one.
   */
  method EditaAluno(db: Store, id: nat, body: Bind) returns (resp: Response)
    requires db.Valid()
    modifies db
    ensures db.Valid() && db.nextId == old(db.nextId)
    ensures AllAccepted(old(db.rows)) ==> AllAccepted(db.rows)
    ensures body.Malformed? ==>
      resp == Response(StatusBadRequest, Refused(BindError(body.detail))) && db.rows == old(db.rows)
    ensures body.Decoded? && !DocumentosValidos(Merged(old(db.rows), id, body.patch)) ==>
      resp == Response(StatusBadRequest, Refused(Invalid(ValidaDados(Merged(old(db.rows), id, body.patch)).error)))
      && db.rows == old(db.rows)
    ensures body.Decoded? && DocumentosValidos(Merged(old(db.rows), id, body.patch)) ==>
      var m := Merged(old(db.rows), id, body.patch);
      resp == Response(StatusOK, Record(m))
      && db.rows == if m.id in old(db.rows) then old(db.rows)[m.id := WithNonZeroColumns(old(db.rows)[m.id], m)] else old(db.rows)
    ensures body.Decoded? && body.patch.id.None? ==>
      Merged(old(db.rows), id, body.patch).id == if id in old(db.rows) then id else 0
  {
    var found := db.First(id);
    var aluno := found.GetOr(Vazio);
    match body {
      case Malformed(detail) =>
        resp := Response(StatusBadRequest, Refused(BindError(detail)));
        return;
      case Decoded(patch) =>
        aluno := Overlay(aluno, patch);
    }
    var verdict := ValidaDados(aluno);
    if verdict.Fail? {
      resp := Response(StatusBadRequest, Refused(Invalid(verdict.error)));
      return;
    }
    if aluno.id in db.rows {
      WithNonZeroColumnsOfAccepted(db.rows[aluno.id], aluno);
    }
    db.UpdateColumns(aluno);
    resp := Response(StatusOK, Record(aluno));
  }
}
