/**
 * The data store behind the handlers: the shared GORM handle, reduced to a
 * table of student records keyed by primary key and the counter that hands
 * out the next key. Each method is one GORM call that the handlers make.
 */
module Database {
  import opened Wrappers
  import opened Models

  /**
   * The condition `Where(&Aluno{CPF: cpf})`: GORM builds a struct condition
   * from its non-zero fields only, so an empty `cpf` leaves no condition.
   */
  predicate MatchesCpf(a: Aluno, cpf: string) {
    cpf == "" || a.cpf == cpf
  }

  /**
   * A row after `UpdateColumns(a)` with a struct argument: each non-zero
   * field of `a` is written, each zero field keeps the stored value.
   */
  function WithNonZeroColumns(row: Aluno, a: Aluno): Aluno {
    Aluno(row.id,
          if a.nome != "" then a.nome else row.nome,
          if a.cpf != "" then a.cpf else row.cpf,
          if a.rg != "" then a.rg else row.rg)
  }

  /**
   * Writing a record that the program's validator accepted over the row with
   * its key writes its CPF and RG, and its name unless the name is empty.
   */
  lemma WithNonZeroColumnsOfAccepted(row: Aluno, a: Aluno)
    requires DocumentosValidos(a) && a.id == row.id
    ensures WithNonZeroColumns(row, a) == a.(nome := if a.nome != "" then a.nome else row.nome)
    ensures DocumentosValidos(WithNonZeroColumns(row, a))
  {
    DocumentosNonZero(a);
  }

  /** Writing a record that passes the intended validator replaces every column: the row becomes that record. */
  lemma WithNonZeroColumnsOfValid(row: Aluno, a: Aluno)
    requires Valido(a) && a.id == row.id
    ensures WithNonZeroColumns(row, a) == a
  {
    WithNonZeroColumnsOfAccepted(row, a);
  }

  /** `all` lists the table: every row exactly once, in some order. */
  ghost predicate Lists(all: seq<Aluno>, rows: map<nat, Aluno>) {
    && |all| == |rows|
    && (forall i :: 0 <= i < |all| ==> all[i].id in rows && rows[all[i].id] == all[i])
    && (forall i, j :: 0 <= i < j < |all| ==> all[i].id != all[j].id)
    && (forall k :: k in rows ==> exists i :: 0 <= i < |all| && all[i].id == k)
  }

  /** `a` is the row with the smallest key among those matching `cpf`. */
  ghost predicate IsFirstMatch(rows: map<nat, Aluno>, cpf: string, a: Aluno) {
    && a.id in rows && rows[a.id] == a && MatchesCpf(a, cpf)
    && forall k :: k in rows && MatchesCpf(rows[k], cpf) ==> a.id <= k
  }

  class Store {
    /** The live (not deleted) rows, by primary key. */
    var rows: map<nat, Aluno>
    /** The key the next insert receives; it only grows, so keys are never reused. */
    var nextId: nat

    /** Keys are positive, below the counter, and each row carries its own key. */
    ghost predicate Valid()
      reads this
    {
      0 < nextId && forall k :: k in rows ==> 0 < k < nextId && rows[k].id == k
    }

    constructor ()
      ensures Valid() && rows == map[] && nextId == 1
    {
      rows := map[];
      nextId := 1;
    }

    /**
     * `Create(&aluno)`: inserts a record that has no key yet under a fresh
     * positive key and gives the record back with that key.
     */
    method Create(a: Aluno) returns (stored: Aluno)
      requires Valid() && a.id == 0
      modifies this
      ensures Valid()
      ensures stored == a.(id := stored.id)
      ensures 0 < stored.id && stored.id !in old(rows)
      ensures forall k :: k in old(rows) ==> k < stored.id
      ensures old(nextId) <= stored.id < nextId
      ensures rows == old(rows)[stored.id := stored]
    {
      stored := a.(id := nextId);
      rows := rows[nextId := stored];
      nextId := nextId + 1;
    }

    /** `First(&aluno, id)`: the row with that key, if it is live. */
    method First(id: nat) returns (found: Option<Aluno>)
      requires Valid()
      ensures found.None? <==> id !in rows
      ensures found.Some? ==> found.value.id == id && id in rows && rows[id] == found.value
    {
      if id in rows {
        found := Some(rows[id]);
      } else {
        found := None;
      }
    }

    /**
     * `Where(&Aluno{CPF: cpf}).First(&aluno)`: among the matching rows, the
     * one with the smallest key (First orders by primary key).
     */
    method FirstWhereCpf(cpf: string) returns (found: Option<Aluno>)
      requires Valid()
      ensures found.None? <==> forall k :: k in rows ==> !MatchesCpf(rows[k], cpf)
      ensures found.Some? ==> IsFirstMatch(rows, cpf, found.value)
    {
      found := None;
      var pending := rows.Keys;
      while pending != {}
        invariant pending <= rows.Keys
        invariant found.None? ==> forall k :: k in rows && k !in pending ==> !MatchesCpf(rows[k], cpf)
        invariant found.Some? ==> found.value.id in rows && rows[found.value.id] == found.value
        invariant found.Some? ==> MatchesCpf(found.value, cpf)
        invariant found.Some? ==> forall k :: k in rows && k !in pending && MatchesCpf(rows[k], cpf) ==> found.value.id <= k
        decreases pending
      {
        var k :| k in pending;
        if MatchesCpf(rows[k], cpf) && (found.None? || k < found.value.id) {
          found := Some(rows[k]);
        }
        pending := pending - {k};
      }
    }

    /** `Find(&alunos)`: every live row, each once. */
    method Find() returns (all: seq<Aluno>)
      requires Valid()
      ensures Lists(all, rows)
    {
      all := [];
      var pending := rows.Keys;
      while pending != {}
        invariant pending <= rows.Keys
        invariant |all| + |pending| == |rows|
        invariant forall i :: 0 <= i < |all| ==> all[i].id in rows && rows[all[i].id] == all[i] && all[i].id !in pending
        invariant forall i, j :: 0 <= i < j < |all| ==> all[i].id != all[j].id
        invariant forall k :: k in rows && k !in pending ==> exists i :: 0 <= i < |all| && all[i].id == k
        decreases pending
      {
        var k :| k in pending;
        ghost var before := all;
        all := all + [rows[k]];
        forall j | j in rows && j !in pending - {k}
          ensures exists i :: 0 <= i < |all| && all[i].id == j
        {
          if j == k {
            assert all[|before|].id == j;
          } else {
            var i :| 0 <= i < |before| && before[i].id == j;
            assert all[i].id == j;
          }
        }
        pending := pending - {k};
      }
    }

    /** `Delete(&aluno, id)`: removes the row with that key; a missing key is no error. */
    method Delete(id: nat)
      requires Valid()
      modifies this
      ensures Valid()
      ensures rows == old(rows) - {id} && nextId == old(nextId)
    {
      rows := rows - {id};
    }

    /**
     * `Model(&a).UpdateColumns(a)`: writes the non-zero fields of `a` into the
     * row keyed by `a.id`. A zero key gives GORM no WHERE clause, so it
     * refuses the update; a key with no live row affects nothing.
     */
    method UpdateColumns(a: Aluno)
      requires Valid()
      modifies this
      ensures Valid() && nextId == old(nextId)
      ensures a.id in old(rows) ==> rows == old(rows)[a.id := WithNonZeroColumns(old(rows)[a.id], a)]
      ensures a.id !in old(rows) ==> rows == old(rows)
    {
      if a.id != 0 && a.id in rows {
        rows := rows[a.id := WithNonZeroColumns(rows[a.id], a)];
      }
    }
  }
}
