/**
 * The student record (`Aluno`) and the validation rules that its struct tags
 * declare (models/aluno.go).
 *
 * Each tag is kept twice: as the text written in the source (`TagText`) and as
 * the rules that text declares (`DeclaredRules`). The validator sees a tag only
 * when Go can unquote its text (`Unquotes`), and the name's tag cannot be
 * unquoted: its `\s` is not a Go escape. So the program checks the CPF and the
 * RG only (`ValidaDados`), while the evidently intended validator, with the
 * backslash escaped, checks all three fields (`ValidaDadosCorrigido`). The
 * rules are proved equal to plain reference predicates (`NomeValido`,
 * `CpfValido`, `RgValido`).
 */
module Models {
  import opened Wrappers

  /**
   * One student record. `id` stands for the primary key that the embedded
   * gorm.Model contributes: 0 until the store assigns one.
   */
  datatype Aluno = Aluno(id: nat, nome: string, cpf: string, rg: string)

  /** The Go zero value of the struct: what a handler starts from before decoding or loading. */
  const Vazio: Aluno := Aluno(0, "", "", "")

  /** The validated fields, in declaration order. */
  datatype Field = Nome | Cpf | Rg

  // ---------------------------------------------------------------------------
  // Character classes of the two regexps
  // ---------------------------------------------------------------------------

  predicate IsAsciiLetter(c: char) {
    'a' <= c <= 'z' || 'A' <= c <= 'Z'
  }

  /** The `\s` class of Go's regexp syntax: space, tab, newline, form feed, carriage return. */
  predicate IsPerlSpace(c: char) {
    c == ' ' || c == '\t' || c == '\n' || c == '\U{000C}' || c == '\r'
  }

  /** A character allowed in a CPF or RG: `[0-9.-]`. */
  predicate IsDocumentChar(c: char) {
    '0' <= c <= '9' || c == '.' || c == '-'
  }

  /** The two bracket expressions that appear in the tags. */
  datatype CharClass =
    | LettersAndSpace  // [a-zA-Z\s]
    | DigitsDotHyphen  // [0-9.-]

  predicate InClass(cls: CharClass, c: char) {
    match cls
    case LettersAndSpace => IsAsciiLetter(c) || IsPerlSpace(c)
    case DigitsDotHyphen => IsDocumentChar(c)
  }

  /**
   * Whether the anchored pattern `^[cls]*$` matches `s`: the star must consume
   * the whole string, one character of the class at a time.
   */
  predicate MatchesAnchoredStar(cls: CharClass, s: string) {
    s == [] || (InClass(cls, s[0]) && MatchesAnchoredStar(cls, s[1..]))
  }

  lemma {:induction false} MatchesAnchoredStarIff(cls: CharClass, s: string)
    ensures MatchesAnchoredStar(cls, s) <==> forall i :: 0 <= i < |s| ==> InClass(cls, s[i])
  {
    if s != [] {
      MatchesAnchoredStarIff(cls, s[1..]);
      assert forall i :: 1 <= i < |s| ==> s[i] == s[1..][i - 1];
    }
  }

  // ---------------------------------------------------------------------------
  // Byte length, as `len=` measures a Go string
  // ---------------------------------------------------------------------------

  /** The number of bytes that UTF-8 spends on `c`. */
  function Utf8Width(c: char): nat {
    if c as int < 0x80 then 1
    else if c as int < 0x800 then 2
    else if c as int < 0x10000 then 3
    else 4
  }

  /** The length of a Go string: its UTF-8 bytes, not its characters. */
  function ByteLen(s: string): nat {
    if s == [] then 0 else Utf8Width(s[0]) + ByteLen(s[1..])
  }

  lemma {:induction false} ByteLenBounds(s: string)
    ensures |s| <= ByteLen(s)
    ensures ByteLen(s) == |s| <==> forall i :: 0 <= i < |s| ==> s[i] as int < 0x80
  {
    if s != [] {
      ByteLenBounds(s[1..]);
      assert forall i :: 1 <= i < |s| ==> s[i] == s[1..][i - 1];
    }
  }

  // ---------------------------------------------------------------------------
  // The struct tags: their text, and how Go reads it
  // ---------------------------------------------------------------------------

  /**
   * The quoted value of each field's `validate:` key, character for character
   * as it stands in the struct's raw string literals (models/aluno.go:10-12).
   */
  function TagText(f: Field): string {
    match f
    case Nome => "nonzero, regexp=^[a-zA-Z\\s]*$"
    case Cpf => "len=14, regexp=^[0-9.-]*$"
    case Rg => "len=12, regexp=^[0-9.-]*$"
  }

  /** The name's tag as evidently intended: the backslash itself escaped, so that unquoting yields `\s`. */
  function FixedTagText(f: Field): string {
    match f
    case Nome => "nonzero, regexp=^[a-zA-Z\\\\s]*$"
    case _ => TagText(f)
  }

  /** A character that may follow a backslash in a Go double-quoted string literal. */
  predicate IsEscapeLead(c: char) {
    c in "abfnrtv\\\"" || c in "xuU01234567"
  }

  /**
   * Whether `strconv.Unquote`, which `reflect.StructTag.Get` applies to a tag
   * value, accepts the text: every backslash must start a valid escape.
   */
  predicate Unquotes(s: string) {
    if s == [] then true
    else if s[0] != '\\' then Unquotes(s[1..])
    else |s| >= 2 && IsEscapeLead(s[1]) && Unquotes(s[2..])
  }

  /** A prefix without backslashes does not affect whether the text unquotes. */
  lemma {:induction false} UnquotesSkip(s: string, i: nat)
    requires i <= |s|
    requires forall j :: 0 <= j < i ==> s[j] != '\\'
    ensures Unquotes(s) == Unquotes(s[i..])
  {
    if i > 0 {
      assert s[0] != '\\';
      UnquotesSkip(s[1..], i - 1);
      assert s[1..][i - 1..] == s[i..];
    }
  }

  // ---------------------------------------------------------------------------
  // The rules a tag declares, and the rules the validator receives
  // ---------------------------------------------------------------------------

  /** One rule of a `validate:` tag. */
  datatype Rule =
    | NonZero               // nonzero: the string is not ""
    | Len(n: nat)           // len=n: the byte length is exactly n
    | Regexp(cls: CharClass) // regexp=^[...]*$

  /** The rules that each field's tag text declares. */
  function DeclaredRules(f: Field): seq<Rule> {
    match f
    case Nome => [NonZero, Regexp(LettersAndSpace)]
    case Cpf => [Len(14), Regexp(DigitsDotHyphen)]
    case Rg => [Len(12), Regexp(DigitsDotHyphen)]
  }

  /**
   * What the validator gets for a field whose tag text is `text`: the declared
   * rules when the text unquotes; otherwise `Tag.Get` answers "" and the
   * field has no rule at all.
   */
  function RulesRead(text: string, declared: seq<Rule>): seq<Rule> {
    if Unquotes(text) then declared else []
  }

  /** The rules the program's validator applies, field by field. */
  function Tags(f: Field): seq<Rule> {
    RulesRead(TagText(f), DeclaredRules(f))
  }

  /** The rules the validator would apply with the name's tag escaped. */
  function FixedTags(f: Field): seq<Rule> {
    RulesRead(FixedTagText(f), DeclaredRules(f))
  }

  /** A text without backslashes unquotes. */
  lemma NoBackslashUnquotes(s: string)
    requires forall j :: 0 <= j < |s| ==> s[j] != '\\'
    ensures Unquotes(s)
  {
    UnquotesSkip(s, |s|);
  }

  /** A backslash that starts no valid escape, after a prefix without backslashes, makes the text fail to unquote. */
  lemma BadEscapeFails(s: string, i: nat)
    requires i + 1 < |s| && s[i] == '\\' && !IsEscapeLead(s[i + 1])
    requires forall j :: 0 <= j < i ==> s[j] != '\\'
    ensures !Unquotes(s)
  {
    UnquotesSkip(s, i);
    assert s[i..][0] == '\\' && s[i..][1] == s[i + 1];
  }

  /** The name's tag does not unquote, so the validator receives no rule for the name. */
  lemma NomeTagUnread()
    ensures !Unquotes(TagText(Nome))
    ensures Tags(Nome) == []
  {
    BadEscapeFails(TagText(Nome), 24);
  }

  /** The CPF tag contains no backslash, so the validator receives its declared rules. */
  lemma CpfTagRead()
    ensures Tags(Cpf) == FixedTags(Cpf) == DeclaredRules(Cpf)
  {
    var t := "len=14, regexp=^[0-9.-]*$";
    assert TagText(Cpf) == FixedTagText(Cpf) == t;
    assert forall j :: 0 <= j < |t| ==> t[j] != '\\';
    NoBackslashUnquotes(t);
  }

  /** The RG tag contains no backslash, so the validator receives its declared rules. */
  lemma RgTagRead()
    ensures Tags(Rg) == FixedTags(Rg) == DeclaredRules(Rg)
  {
    var t := "len=12, regexp=^[0-9.-]*$";
    assert TagText(Rg) == FixedTagText(Rg) == t;
    assert forall j :: 0 <= j < |t| ==> t[j] != '\\';
    NoBackslashUnquotes(t);
  }

  /** A text whose only backslash starts a valid two-character escape unquotes. */
  lemma OneEscapeUnquotes(s: string, i: nat)
    requires i + 1 < |s| && s[i] == '\\' && IsEscapeLead(s[i + 1])
    requires forall j :: 0 <= j < |s| && j != i && j != i + 1 ==> s[j] != '\\'
    ensures Unquotes(s)
  {
    UnquotesSkip(s, i);
    var rest := s[i..];
    assert rest[0] == '\\' && rest[1] == s[i + 1];
    assert rest[2..] == s[i + 2..];
    NoBackslashUnquotes(s[i + 2..]);
  }

  /** With the backslash escaped, the name's tag unquotes and its rules reach the validator. */
  lemma FixedNomeTagRead()
    ensures Unquotes(FixedTagText(Nome))
    ensures FixedTags(Nome) == DeclaredRules(Nome)
  {
    OneEscapeUnquotes(FixedTagText(Nome), 24);
  }

  // ---------------------------------------------------------------------------
  // Interpreting the rules
  // ---------------------------------------------------------------------------

  predicate Satisfies(s: string, r: Rule) {
    match r
    case NonZero => s != ""
    case Len(n) => ByteLen(s) == n
    case Regexp(cls) => MatchesAnchoredStar(cls, s)
  }

  /** Every rule of the list holds of `s`. */
  predicate AllSatisfied(s: string, rules: seq<Rule>) {
    rules == [] || (Satisfies(s, rules[0]) && AllSatisfied(s, rules[1..]))
  }

  lemma AllSatisfiedPair(s: string, r1: Rule, r2: Rule)
    ensures AllSatisfied(s, [r1, r2]) <==> Satisfies(s, r1) && Satisfies(s, r2)
  {
    assert [r1, r2][1..] == [r2];
    assert [r2][1..] == [];
    assert AllSatisfied(s, [r2]) == (Satisfies(s, r2) && AllSatisfied(s, []));
    assert AllSatisfied(s, [r1, r2]) == (Satisfies(s, r1) && AllSatisfied(s, [r2]));
  }

  /** The fields that break a rule, when field `f` is checked against `tags(f)`. */
  function FailingFields(a: Aluno, tags: Field -> seq<Rule>): set<Field> {
    (if AllSatisfied(a.nome, tags(Nome)) then {} else {Nome})
    + (if AllSatisfied(a.cpf, tags(Cpf)) then {} else {Cpf})
    + (if AllSatisfied(a.rg, tags(Rg)) then {} else {Rg})
  }

  /** No error when no field fails; otherwise an error naming the failing fields. */
  function Verdict(failing: set<Field>): Outcome<set<Field>> {
    if failing == {} then Pass else Fail(failing)
  }

  // ---------------------------------------------------------------------------
  // Reference predicates: the rules written out directly
  // ---------------------------------------------------------------------------

  /** A name as its tag declares it: not empty, and only ASCII letters and whitespace. */
  predicate NomeValido(s: string) {
    |s| > 0 && forall i :: 0 <= i < |s| ==> IsAsciiLetter(s[i]) || IsPerlSpace(s[i])
  }

  /** A CPF: exactly 14 characters, each a digit, `.` or `-`. */
  predicate CpfValido(s: string) {
    |s| == 14 && forall i :: 0 <= i < |s| ==> IsDocumentChar(s[i])
  }

  /** An RG: exactly 12 characters, each a digit, `.` or `-`. */
  predicate RgValido(s: string) {
    |s| == 12 && forall i :: 0 <= i < |s| ==> IsDocumentChar(s[i])
  }

  /** What the program's validator accepts: a valid CPF and RG, whatever the name. */
  predicate DocumentosValidos(a: Aluno) {
    CpfValido(a.cpf) && RgValido(a.rg)
  }

  /** What the tags declare: all three fields valid. */
  predicate Valido(a: Aluno) {
    NomeValido(a.nome) && DocumentosValidos(a)
  }

  /** A document string whose regexp holds is ASCII, so its byte length is its length. */
  lemma DocumentTagIff(s: string, n: nat)
    ensures (ByteLen(s) == n && MatchesAnchoredStar(DigitsDotHyphen, s))
        <==> (|s| == n && forall i :: 0 <= i < |s| ==> IsDocumentChar(s[i]))
  {
    MatchesAnchoredStarIff(DigitsDotHyphen, s);
    ByteLenBounds(s);
  }

  /** The name's declared rules (`nonzero`, `^[a-zA-Z\s]*$`) hold exactly when the name is valid. */
  lemma NomeRulesIff(s: string)
    ensures AllSatisfied(s, DeclaredRules(Nome)) <==> NomeValido(s)
  {
    MatchesAnchoredStarIff(LettersAndSpace, s);
    AllSatisfiedPair(s, NonZero, Regexp(LettersAndSpace));
  }

  lemma CpfRulesIff(s: string)
    ensures AllSatisfied(s, DeclaredRules(Cpf)) <==> CpfValido(s)
  {
    DocumentTagIff(s, 14);
    AllSatisfiedPair(s, Len(14), Regexp(DigitsDotHyphen));
  }

  lemma RgRulesIff(s: string)
    ensures AllSatisfied(s, DeclaredRules(Rg)) <==> RgValido(s)
  {
    DocumentTagIff(s, 12);
    AllSatisfiedPair(s, Len(12), Regexp(DigitsDotHyphen));
  }

  /** The rules the program applies: none to the name, the declared ones to the CPF and the RG. */
  lemma TagsIff(a: Aluno)
    ensures AllSatisfied(a.nome, Tags(Nome))
    ensures AllSatisfied(a.cpf, Tags(Cpf)) <==> CpfValido(a.cpf)
    ensures AllSatisfied(a.rg, Tags(Rg)) <==> RgValido(a.rg)
  {
    NomeTagUnread();
    CpfTagRead();
    RgTagRead();
    CpfRulesIff(a.cpf);
    RgRulesIff(a.rg);
  }

  /** The rules of the escaped tags: each field's declared rules. */
  lemma FixedTagsIff(a: Aluno)
    ensures AllSatisfied(a.nome, FixedTags(Nome)) <==> NomeValido(a.nome)
    ensures AllSatisfied(a.cpf, FixedTags(Cpf)) <==> CpfValido(a.cpf)
    ensures AllSatisfied(a.rg, FixedTags(Rg)) <==> RgValido(a.rg)
  {
    FixedNomeTagRead();
    CpfTagRead();
    RgTagRead();
    NomeRulesIff(a.nome);
    CpfRulesIff(a.cpf);
    RgRulesIff(a.rg);
  }

  // ---------------------------------------------------------------------------
  // ValidaDados
  // ---------------------------------------------------------------------------

  /**
   * The program's validator: each field against the rules its tag hands over.
   * The name's tag is unread, so only the CPF and the RG can fail. The record
   * is a value, so it cannot be changed; the id plays no part.
   */
  function ValidaDados(a: Aluno): (r: Outcome<set<Field>>)
    ensures r.Pass? <==> DocumentosValidos(a)
    ensures r.Fail? ==> r.error != {} && Nome !in r.error
    ensures r.Fail? ==> (Cpf in r.error <==> !CpfValido(a.cpf))
    ensures r.Fail? ==> (Rg in r.error <==> !RgValido(a.rg))
  {
    TagsIff(a);
    Verdict(FailingFields(a, Tags))
  }

  /**
   * The evidently intended validator: the same check with the name's tag
   * escaped, so that every field's declared rules apply.
   */
  function ValidaDadosCorrigido(a: Aluno): (r: Outcome<set<Field>>)
    ensures r.Pass? <==> Valido(a)
    ensures r.Fail? ==> r.error != {}
    ensures r.Fail? ==> (Nome in r.error <==> !NomeValido(a.nome))
    ensures r.Fail? ==> (Cpf in r.error <==> !CpfValido(a.cpf))
    ensures r.Fail? ==> (Rg in r.error <==> !RgValido(a.rg))
  {
    FixedTagsIff(a);
    Verdict(FailingFields(a, FixedTags))
  }

  /** Neither the id nor anything else outside the three fields influences the verdict. */
  lemma ValidaDadosIgnoresId(a: Aluno, id: nat)
    ensures ValidaDados(a.(id := id)) == ValidaDados(a)
    ensures ValidaDadosCorrigido(a.(id := id)) == ValidaDadosCorrigido(a)
  {
  }

  /** The program's verdict does not depend on the name at all. */
  lemma NomeNeverChecked(a: Aluno, nome: string)
    ensures ValidaDados(a.(nome := nome)) == ValidaDados(a)
  {
    var r, q := ValidaDados(a.(nome := nome)), ValidaDados(a);
    if r.Fail? {
      forall g: Field
        ensures g in r.error <==> g in q.error
      {
        match g
        case Nome =>
        case Cpf =>
        case Rg =>
      }
      assert r.error == q.error;
    }
  }

  /** A record the program accepts has a non-empty CPF and RG (so a struct update writes both). */
  lemma DocumentosNonZero(a: Aluno)
    requires DocumentosValidos(a)
    ensures a.cpf != "" && a.rg != ""
  {
  }

  // ---------------------------------------------------------------------------
  // Concrete records
  // ---------------------------------------------------------------------------

  /** The record that the tests create, and the one they patch it to, both pass. */
  lemma TestRecordsValid()
    ensures ValidaDados(Aluno(0, "Aluno Teste", "123.456.789-10", "12.345.678-9")) == Pass
    ensures ValidaDados(Aluno(0, "Aluno Testi", "123.456.789-22", "12.345.678-0")) == Pass
  {
    assert DocumentosValidos(Aluno(0, "Aluno Teste", "123.456.789-10", "12.345.678-9"));
    assert DocumentosValidos(Aluno(0, "Aluno Testi", "123.456.789-22", "12.345.678-0"));
  }

  /** A digit in the name passes the program's validator, and the intended one rejects it, blaming only the name. */
  lemma DigitInNomeAccepted()
    ensures ValidaDados(Aluno(0, "A1uno", "123.456.789-10", "12.345.678-9")) == Pass
    ensures ValidaDadosCorrigido(Aluno(0, "A1uno", "123.456.789-10", "12.345.678-9")) == Fail({Nome})
  {
    var bad := Aluno(0, "A1uno", "123.456.789-10", "12.345.678-9");
    assert !NomeValido(bad.nome) by {
      assert !(IsAsciiLetter(bad.nome[1]) || IsPerlSpace(bad.nome[1]));
    }
    assert DocumentosValidos(bad);
    BlamedExactly(bad, Nome);
  }

  /** An empty name passes the program's validator: nothing applies `nonzero` to it. */
  lemma EmptyNomeAccepted()
    ensures ValidaDados(Aluno(0, "", "123.456.789-10", "12.345.678-9")) == Pass
    ensures ValidaDadosCorrigido(Aluno(0, "", "123.456.789-10", "12.345.678-9")).Fail?
  {
    assert DocumentosValidos(Aluno(0, "", "123.456.789-10", "12.345.678-9"));
  }

  /** A CPF one character short is rejected, and only the CPF is blamed. */
  lemma ShortCpfRejected()
    ensures ValidaDados(Aluno(0, "Aluno", "123.456.789-1", "12.345.678-9")) == Fail({Cpf})
  {
    var short := Aluno(0, "Aluno", "123.456.789-1", "12.345.678-9");
    assert |short.cpf| == 13;
    assert RgValido(short.rg);
    var r := ValidaDados(short);
    assert r.Fail?;
    forall g: Field
      ensures g in r.error <==> g == Cpf
    {
      match g
      case Nome =>
      case Cpf =>
      case Rg =>
    }
    assert r.error == {Cpf};
  }

  /** Under the intended validator, when exactly one field breaks its rule, the error blames that field alone. */
  lemma BlamedExactly(a: Aluno, f: Field)
    requires !NomeValido(a.nome) <==> f == Nome
    requires !CpfValido(a.cpf) <==> f == Cpf
    requires !RgValido(a.rg) <==> f == Rg
    ensures ValidaDadosCorrigido(a) == Fail({f})
  {
    var r := ValidaDadosCorrigido(a);
    assert r.Fail?;
    forall g: Field
      ensures g in r.error <==> g in {f}
    {
      match g
      case Nome =>
      case Cpf =>
      case Rg =>
    }
    assert r.error == {f};
  }
}
