/**
 * The request sequences that the repository's tests drive (main_test.go),
 * written as client methods of the handlers: each is proved from the
 * handlers' contracts alone.
 */
module Scenarios {
  import opened Wrappers
  import opened Models
  import opened Database
  import opened Controllers

  const Mock: Aluno := Aluno(0, "Aluno Teste", "123.456.789-10", "12.345.678-9")
  const MockEdit: Patch := Marshal(Aluno(0, "Aluno Testi", "123.456.789-22", "12.345.678-0"))

  /** `CriarAlunoMock`: the fixture inserted straight into the store, bypassing the handler. */
  method CriarAlunoMock(db: Store) returns (id: nat)
    requires db.Valid()
    modifies db
    ensures db.Valid()
    ensures 0 < id && id !in old(db.rows)
    ensures db.rows == old(db.rows)[id := Mock.(id := id)]
  {
    var stored := db.Create(Mock);
    id := stored.id;
  }

  /** A greeting by name, as the status-code test requests it. */
  method GreetBarbara(db: Store) returns (resp: Response)
    requires db.Valid()
    ensures resp == Response(StatusOK, Message("API diz", "E ai Barbara, tudo beleza?"))
  {
    resp := Saudacao(db, "Barbara");
  }

  /** A record created through the handler is found again under its new key, unchanged. */
  method CreateThenFetchById(db: Store, p: Patch) returns (created: Response, fetched: Response)
    requires db.Valid() && p.id.None? && DocumentosValidos(Requested(p))
    modifies db
    ensures created.status == StatusOK && created.body.Record?
    ensures fetched == created
  {
    created := CriaNovoAluno(db, Decoded(p));
    fetched := BuscaAlunoPorID(db, created.body.aluno.id);
  }

  /**
   * A record created through the handler is found again by its CPF exactly
   * when no older record shares that CPF: the lookup returns the oldest match.
   */
  method CreateThenFetchByCpf(db: Store, p: Patch) returns (created: Response, fetched: Response)
    requires db.Valid() && p.id.None? && DocumentosValidos(Requested(p))
    modifies db
    ensures created.status == StatusOK && created.body.Record?
    ensures fetched.status == StatusOK && fetched.body.Record?
    ensures fetched.body.aluno.cpf == Requested(p).cpf
    ensures fetched == created <==> forall k :: k in old(db.rows) ==> old(db.rows)[k].cpf != Requested(p).cpf
  {
    created := CriaNovoAluno(db, Decoded(p));
    var cpf := Requested(p).cpf;
    var mine := created.body.aluno;
    assert cpf != "";
    assert mine.id in db.rows && MatchesCpf(db.rows[mine.id], cpf);
    fetched := BuscaAlunoPorCPF(db, cpf);
    if fetched == created {
      forall k | k in old(db.rows)
        ensures old(db.rows)[k].cpf != cpf
      {
        assert db.rows[k] == old(db.rows)[k];
        assert k < mine.id;
      }
    } else {
      assert fetched.body.aluno != mine;
    }
  }

  /**
   * The edit test as written: the body is a whole marshalled record, so it
   * carries `"ID":0`. Decoding it zeroes the key of the loaded row, the update
   * has no key and changes nothing, and the answer is 200 with the new values
   * under key 0; the row still holds the fixture.
   */
  method EditMock(db: Store) returns (id: nat, resp: Response)
    requires db.Valid()
    modifies db
    ensures db.Valid()
    ensures resp == Response(StatusOK, Record(Aluno(0, "Aluno Testi", "123.456.789-22", "12.345.678-0")))
    ensures db.rows == old(db.rows)[id := Mock.(id := id)]
  {
    id := CriarAlunoMock(db);
    TestRecordsValid();
    OverlayMarshal(db.rows[id], Aluno(0, "Aluno Testi", "123.456.789-22", "12.345.678-0"));
    resp := EditaAluno(db, id, Decoded(MockEdit));
  }

  /**
   * The edit test with a body that carries only the three fields: the row is
   * patched under its key, and the answer and the row agree.
   */
  method EditMockWithoutKey(db: Store) returns (id: nat, resp: Response)
    requires db.Valid()
    modifies db
    ensures db.Valid()
    ensures resp == Response(StatusOK, Record(Aluno(id, "Aluno Testi", "123.456.789-22", "12.345.678-0")))
    ensures db.rows == old(db.rows)[id := resp.body.aluno]
  {
    id := CriarAlunoMock(db);
    TestRecordsValid();
    var edited := Aluno(id, "Aluno Testi", "123.456.789-22", "12.345.678-0");
    var body := Patch(None, Some(edited.nome), Some(edited.cpf), Some(edited.rg));
    assert Overlay(db.rows[id], body) == edited;
    assert DocumentosValidos(edited.(id := 0));
    resp := EditaAluno(db, id, Decoded(body));
  }

  /**
   * An edit that empties the name: the program accepts it and answers 200
   * with the empty name, but the update skips the empty field, so the row
   * keeps the fixture's name.
   */
  method EditEmptyNome(db: Store) returns (id: nat, resp: Response)
    requires db.Valid()
    modifies db
    ensures db.Valid()
    ensures resp == Response(StatusOK, Record(Aluno(id, "", "123.456.789-10", "12.345.678-9")))
    ensures db.rows == old(db.rows)[id := Mock.(id := id)]
    ensures db.rows[id] != resp.body.aluno
  {
    id := CriarAlunoMock(db);
    var body := Patch(None, Some(""), None, None);
    assert Overlay(db.rows[id], body) == Mock.(id := id, nome := "");
    TestRecordsValid();
    assert DocumentosValidos(Mock);
    resp := EditaAluno(db, id, Decoded(body));
  }

  /** A key freed by a delete is not handed out again: the next create gets a new one. */
  method DeleteThenCreate(db: Store, id: nat, p: Patch) returns (created: Response)
    requires db.Valid() && id in db.rows && p.id.None? && DocumentosValidos(Requested(p))
    modifies db
    ensures created.status == StatusOK && created.body.Record?
    ensures created.body.aluno.id != id && id !in db.rows
  {
    var _ := DeletaAluno(db, id);
    created := CriaNovoAluno(db, Decoded(p));
  }

  /** Deleting twice answers the same and leaves the same table as deleting once. */
  method DeleteTwice(db: Store, id: nat) returns (first: Response, second: Response)
    requires db.Valid()
    modifies db
    ensures first == second == Deletado
    ensures db.rows == old(db.rows) - {id}
  {
    first := DeletaAluno(db, id);
    second := DeletaAluno(db, id);
  }

  /** Once deleted, a record is no longer found by its key. */
  method FetchAfterDelete(db: Store, id: nat) returns (resp: Response)
    requires db.Valid()
    modifies db
    ensures resp == NaoEncontrado
  {
    var _ := DeletaAluno(db, id);
    resp := BuscaAlunoPorID(db, id);
  }
}
