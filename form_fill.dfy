/**
 * Which input field of a form receives the name and which the e-mail
 * (preencher_formulario in Cadastro_organizado.py).
 *
 * A page is the list of its text-entry fields in document order; each field is
 * known only by its `aria-label` and `type` attributes, either of which may be
 * missing. Typing (`send_keys`) appends text to what a field already holds.
 */
module FormFill {
  import opened Wrappers
  import opened Text

  /** One text-entry field as the form script sees it. */
  datatype Field = Field(ariaLabel: Option<string>, inputType: Option<string>)

  /** `(campo.get_attribute(name) or '')`: a missing attribute reads as ''. */
  function OrEmpty(attr: Option<string>): string {
    if attr.Some? then attr.value else ""
  }

  /** The lower-cased label the script tests. */
  function Label(f: Field): string {
    Lower(OrEmpty(f.ariaLabel))
  }

  /** The lower-cased input type the script tests. */
  function Kind(f: Field): string {
    Lower(OrEmpty(f.inputType))
  }

  /** The name branch's test: the label mentions "nome". */
  predicate IsNameField(f: Field) {
    Contains(Label(f), "nome")
  }

  /** The e-mail branch's test: the label mentions "email" or the field is an e-mail input. */
  predicate IsEmailField(f: Field) {
    Contains(Label(f), "email") || Kind(f) == "email"
  }

  /**
   * The two field tests as the script states them: "nome" or "email" occurs
   * somewhere in the lower-cased label; a field without an aria-label never
   * mentions "nome" and qualifies for the e-mail only by its type.
   */
  lemma FieldTests(f: Field)
    ensures IsNameField(f) <==> exists i :: 0 <= i <= |Label(f)| && IsPrefix("nome", Label(f)[i..])
    ensures IsEmailField(f) <==>
              (exists i :: 0 <= i <= |Label(f)| && IsPrefix("email", Label(f)[i..])) || Kind(f) == "email"
    ensures f.ariaLabel.None? ==> !IsNameField(f) && (IsEmailField(f) <==> Kind(f) == "email")
  {
    ContainsOccurs(Label(f), "nome");
    ContainsOccurs(Label(f), "email");
  }

  /** The two tests of the label pass, evaluated on one field. */
  datatype Signal = Signal(mentionsName: bool, qualifiesEmail: bool)

  function SignalOf(f: Field): Signal {
    Signal(IsNameField(f), IsEmailField(f))
  }

  /** The tests of every field, in document order. */
  function Signals(fields: seq<Field>): (sig: seq<Signal>)
    ensures |sig| == |fields|
    ensures forall k :: 0 <= k < |fields| ==> sig[k] == SignalOf(fields[k])
  {
    seq(|fields|, k requires 0 <= k < |fields| => SignalOf(fields[k]))
  }

  /**
   * The state of the label pass: where the name and the e-mail were typed so far.
   * `nameAt.Some?` is the script's `nome_preenchido` flag, `emailAt.Some?` its
   * `email_preenchido` flag.
   */
  datatype Scan = Scan(nameAt: Option<nat>, emailAt: Option<nat>)

  /** One iteration of the label pass, on the field at index `j` with tests `g`. */
  function Step(s: Scan, g: Signal, j: nat): Scan {
    if s.nameAt.None? && g.mentionsName then s.(nameAt := Some(j))
    else if s.emailAt.None? && g.qualifiesEmail then s.(emailAt := Some(j))
    else s
  }

  /** What one iteration of the label pass types into its field: the name, the e-mail or nothing. */
  function StepWrite(s: Scan, g: Signal, name: string, email: string): string {
    if s.nameAt.None? && g.mentionsName then name
    else if s.emailAt.None? && g.qualifiesEmail then email
    else ""
  }

  /** The label pass over the first `n` fields. */
  function ScanUpTo(sig: seq<Signal>, n: nat): (s: Scan)
    requires n <= |sig|
    ensures s.nameAt.Some? ==> s.nameAt.value < n
    ensures s.emailAt.Some? ==> s.emailAt.value < n
    ensures s.nameAt.Some? && s.emailAt.Some? ==> s.nameAt.value != s.emailAt.value
  {
    if n == 0 then Scan(None, None) else Step(ScanUpTo(sig, n - 1), sig[n - 1], n - 1)
  }

  /** The label pass over the whole page. */
  function LabelPass(fields: seq<Field>): Scan {
    ScanUpTo(Signals(fields), |fields|)
  }

  /** The field that finally receives the name: the label pass's choice, else field 0. */
  function NameTarget(fields: seq<Field>): (t: Option<nat>)
    ensures t.Some? ==> t.value < |fields|
    ensures t.None? <==> |fields| == 0
    ensures |fields| == 1 ==> t == Some(0)
  {
    var s := LabelPass(fields);
    if s.nameAt.Some? then s.nameAt else if |fields| > 0 then Some(0) else None
  }

  /** The field that finally receives the e-mail: the label pass's choice, else field 1. */
  function EmailTarget(fields: seq<Field>): (t: Option<nat>)
    ensures t.Some? ==> t.value < |fields|
    ensures |fields| >= 2 ==> t.Some?
    ensures |fields| == 0 ==> t.None?
  {
    var s := LabelPass(fields);
    if s.emailAt.Some? then s.emailAt else if |fields| > 1 then Some(1) else None
  }

  /** What the label pass `s` typed into field `i`. */
  function LabelText(s: Scan, i: nat, name: string, email: string): string {
    if s.nameAt == Some(i) then name else if s.emailAt == Some(i) then email else ""
  }

  /** The name the positional fallback typed into field `i`: field 0 when the label pass placed none. */
  function FallbackName(fields: seq<Field>, i: nat, name: string): string {
    if LabelPass(fields).nameAt.None? && |fields| > 0 && i == 0 then name else ""
  }

  /** The e-mail the positional fallback typed into field `i`: field 1 when the label pass placed none. */
  function FallbackEmail(fields: seq<Field>, i: nat, email: string): string {
    if LabelPass(fields).emailAt.None? && |fields| > 1 && i == 1 then email else ""
  }

  /**
   * The contents of every field after preencher_formulario typed `name` and
   * `email` into a page whose fields held `before`.
   */
  function Typed(before: seq<string>, fields: seq<Field>, name: string, email: string): (after: seq<string>)
    requires |before| == |fields|
    ensures |after| == |before|
    ensures forall i :: 0 <= i < |after| ==> IsPrefix(before[i], after[i])
    ensures forall i :: 0 <= i < |after| && NameTarget(fields) != Some(i) && EmailTarget(fields) != Some(i)
              ==> after[i] == before[i]
  {
    var s := LabelPass(fields);
    seq(|before|, i requires 0 <= i < |before| =>
      before[i] + LabelText(s, i, name, email) + FallbackName(fields, i, name) + FallbackEmail(fields, i, email))
  }

  /**
   * One iteration never moves a placement already made; the name branch fires
   * first, and the e-mail is placed only on the current field, only when it
   * qualifies and only when the name branch did not fire.
   */
  lemma StepPlacements(s: Scan, g: Signal, j: nat)
    ensures var r := Step(s, g, j);
      && (s.nameAt.Some? ==> r.nameAt == s.nameAt)
      && (s.emailAt.Some? ==> r.emailAt == s.emailAt)
      && (s.nameAt.None? && g.mentionsName ==> r == s.(nameAt := Some(j)))
      && (r.emailAt != s.emailAt ==> r.emailAt == Some(j) && g.qualifiesEmail && r.nameAt == s.nameAt)
  {
  }

  /** The label pass over a prefix puts the name on the first field there whose label mentions "nome". */
  lemma {:induction false} ScanName(sig: seq<Signal>, n: nat)
    requires n <= |sig|
    ensures var s := ScanUpTo(sig, n);
      && (s.nameAt.None? <==> forall k :: 0 <= k < n ==> !sig[k].mentionsName)
      && (s.nameAt.Some? ==>
            sig[s.nameAt.value].mentionsName
            && forall k :: 0 <= k < s.nameAt.value ==> !sig[k].mentionsName)
  {
    if n > 0 {
      ScanName(sig, n - 1);
    }
  }

  /**
   * The label pass over a prefix puts the e-mail on the first field there that
   * qualifies for it and that the name branch did not take.
   */
  lemma {:induction false} ScanEmail(sig: seq<Signal>, n: nat)
    requires n <= |sig|
    ensures var s := ScanUpTo(sig, n);
      && (s.emailAt.None? <==> forall k :: 0 <= k < n && sig[k].qualifiesEmail ==> s.nameAt == Some(k))
      && (s.emailAt.Some? ==>
            sig[s.emailAt.value].qualifiesEmail
            && s.nameAt != Some(s.emailAt.value)
            && forall k :: 0 <= k < s.emailAt.value && sig[k].qualifiesEmail ==> s.nameAt == Some(k))
  {
    if n > 0 {
      ScanEmail(sig, n - 1);
      ScanName(sig, n - 1);
    }
  }

  /**
   * The name goes to the first field in document order whose lower-cased label
   * contains "nome"; when there is none, the label pass places no name.
   */
  lemma NameGoesToFirstNameField(fields: seq<Field>)
    ensures LabelPass(fields).nameAt.None? <==> forall k :: 0 <= k < |fields| ==> !IsNameField(fields[k])
    ensures forall j :: LabelPass(fields).nameAt == Some(j) ==>
              j < |fields| && IsNameField(fields[j]) && forall k :: 0 <= k < j ==> !IsNameField(fields[k])
  {
    ScanName(Signals(fields), |fields|);
  }

  /**
   * The e-mail goes to the first field, in document order, whose label contains
   * "email" or whose type is "email", other than the field the name branch took.
   * A field whose label mentions "nome" qualifies once the name is placed.
   */
  lemma EmailGoesToFirstFreeEmailField(fields: seq<Field>)
    ensures var s := LabelPass(fields);
      s.emailAt.None? <==> forall k :: 0 <= k < |fields| && IsEmailField(fields[k]) ==> s.nameAt == Some(k)
    ensures var s := LabelPass(fields);
      forall j :: s.emailAt == Some(j) ==>
        && j < |fields| && IsEmailField(fields[j]) && s.nameAt != Some(j)
        && forall k :: 0 <= k < j && IsEmailField(fields[k]) ==> s.nameAt == Some(k)
  {
    ScanEmail(Signals(fields), |fields|);
  }

  /**
   * What the label pass chose: a field that mentions "nome" for the name, a
   * field that qualifies for the e-mail for the e-mail, never the same field.
   */
  lemma LabelPassPlacements(fields: seq<Field>)
    ensures var s := LabelPass(fields);
      s.nameAt.Some? ==> s.nameAt.value < |fields| && IsNameField(fields[s.nameAt.value])
    ensures var s := LabelPass(fields);
      s.emailAt.Some? ==> s.emailAt.value < |fields| && IsEmailField(fields[s.emailAt.value])
    ensures var s := LabelPass(fields);
      s.nameAt.Some? && s.emailAt.Some? ==> s.nameAt.value != s.emailAt.value
  {
    ScanName(Signals(fields), |fields|);
    ScanEmail(Signals(fields), |fields|);
  }

  /**
   * The positional fallback types a value only into that value's final target,
   * and only when the label pass left the value unplaced.
   */
  lemma FallbackTargets(fields: seq<Field>, i: nat, name: string, email: string)
    ensures FallbackName(fields, i, name) ==
              if LabelPass(fields).nameAt.None? && NameTarget(fields) == Some(i) then name else ""
    ensures FallbackEmail(fields, i, email) ==
              if LabelPass(fields).emailAt.None? && EmailTarget(fields) == Some(i) then email else ""
  {
  }

  /**
   * Where the values finally go: the name to the label pass's choice, else (no
   * field mentions "nome") to field 0; the e-mail to the label pass's choice,
   * else (every qualifying field went to the name) to field 1, or nowhere on a
   * page of one field.
   */
  lemma FallbackPositions(fields: seq<Field>)
    ensures LabelPass(fields).nameAt.Some? ==> NameTarget(fields) == LabelPass(fields).nameAt
    ensures (forall k :: 0 <= k < |fields| ==> !IsNameField(fields[k])) && |fields| > 0 ==>
              NameTarget(fields) == Some(0)
    ensures LabelPass(fields).emailAt.Some? ==> EmailTarget(fields) == LabelPass(fields).emailAt
    ensures (forall k :: 0 <= k < |fields| && IsEmailField(fields[k]) ==> LabelPass(fields).nameAt == Some(k)) ==>
              EmailTarget(fields) == if |fields| > 1 then Some(1) else None
  {
    NameGoesToFirstNameField(fields);
    EmailGoesToFirstFreeEmailField(fields);
  }

  /**
   * What each chosen field ends up holding: the name or the e-mail appended once;
   * both, in the order they were typed, only when the fallback chose a field the
   * label pass had already filled.
   */
  lemma TypedTargets(before: seq<string>, fields: seq<Field>, name: string, email: string)
    requires |before| == |fields|
    ensures var after, n, e := Typed(before, fields, name, email), NameTarget(fields), EmailTarget(fields);
      forall i :: 0 <= i < |after| && n == Some(i) && e != Some(i) ==> after[i] == before[i] + name
    ensures var after, n, e := Typed(before, fields, name, email), NameTarget(fields), EmailTarget(fields);
      forall i :: 0 <= i < |after| && e == Some(i) && n != Some(i) ==> after[i] == before[i] + email
    ensures var after, n, e := Typed(before, fields, name, email), NameTarget(fields), EmailTarget(fields);
      forall i :: 0 <= i < |after| && n == Some(i) && e == Some(i) ==>
        && (LabelPass(fields).nameAt.None? || LabelPass(fields).emailAt.None?)
        && after[i] == if LabelPass(fields).nameAt.Some? then before[i] + name + email
                       else before[i] + email + name
  {
    TypedAt(before, fields, name, email);
    var after, s := Typed(before, fields, name, email), LabelPass(fields);
    forall i | 0 <= i < |after|
      ensures NameTarget(fields) == Some(i) && EmailTarget(fields) != Some(i) ==> after[i] == before[i] + name
      ensures EmailTarget(fields) == Some(i) && NameTarget(fields) != Some(i) ==> after[i] == before[i] + email
    {
      assert after[i] == before[i] + LabelText(s, i, name, email) + FallbackName(fields, i, name)
                         + FallbackEmail(fields, i, email);
    }
  }

  /**
   * The fallback does not look at what the label pass typed: with an unlabelled
   * first field and a "Nome" second field, field 1 receives the name and then the e-mail.
   */
  lemma FallbackMayTypeBothIntoOneField()
    ensures var fields := [Field(None, Some("text")), Field(Some("Nome"), Some("text"))];
      && NameTarget(fields) == Some(1) && EmailTarget(fields) == Some(1)
      && Typed(["", ""], fields, "Ana", "a@x.com") == ["", "Anaa@x.com"]
  {
    var fields := [Field(None, Some("text")), Field(Some("Nome"), Some("text"))];
    assert Label(fields[1]) == "nome";
    assert IsPrefix("nome", Label(fields[1]));
    assert Label(fields[0]) == "" && Kind(fields[0]) == "text" && Kind(fields[1]) == "text";
    assert !Contains(Label(fields[1]), "email");
    var sig := Signals(fields);
    assert sig[0] == Signal(false, false) && sig[1] == Signal(true, false);
    assert ScanUpTo(sig, 1) == Scan(None, None);
    assert LabelPass(fields) == Scan(Some(1), None);
    var after := Typed(["", ""], fields, "Ana", "a@x.com");
    TypedAt(["", ""], fields, "Ana", "a@x.com");
    assert after[0] == "";
    assert after[1] == "Anaa@x.com";
    assert after == ["", "Anaa@x.com"];
  }

  /**
   * Once the name is placed, a later field whose label also mentions "nome" is
   * tested by the e-mail branch: here it is an e-mail input and takes the e-mail.
   */
  lemma LaterNameFieldMayTakeEmail()
    ensures var fields := [Field(Some("Nome"), None), Field(Some("Nome do contato"), Some("email"))];
      LabelPass(fields) == Scan(Some(0), Some(1))
  {
    var fields := [Field(Some("Nome"), None), Field(Some("Nome do contato"), Some("email"))];
    assert Label(fields[0]) == "nome";
    assert IsPrefix("nome", Label(fields[0]));
    assert Kind(fields[1]) == "email";
    var sig := Signals(fields);
    assert sig[0].mentionsName && sig[1].qualifiesEmail;
    assert ScanUpTo(sig, 1) == Scan(Some(0), None);
  }

  /** One step of the label pass types into field `j` only, and there at most one value. */
  lemma StepText(sig: seq<Signal>, j: nat, k: nat, name: string, email: string)
    requires j < |sig|
    ensures var s, s' := ScanUpTo(sig, j), ScanUpTo(sig, j + 1);
      && (k != j ==> LabelText(s', k, name, email) == LabelText(s, k, name, email))
      && (k == j ==> LabelText(s, k, name, email) == "")
      && (k == j ==>
            LabelText(s', k, name, email) ==
              if s.nameAt.None? && sig[j].mentionsName then name
              else if s.emailAt.None? && sig[j].qualifiesEmail then email
              else "")
  {
  }

  /**
   * One iteration of the label pass on field `j`, on contents: appending what
   * the step types (`written`) to field `j` turns the contents after `j` fields
   * into the contents after `j + 1` fields.
   */
  lemma StepContents(sig: seq<Signal>, j: nat, start: seq<string>, typed: seq<string>,
                     written: string, name: string, email: string)
    requires j < |sig| && j < |typed| && |typed| == |start|
    requires forall k :: 0 <= k < |typed| ==>
               typed[k] == start[k] + LabelText(ScanUpTo(sig, j), k, name, email)
    requires written == StepWrite(ScanUpTo(sig, j), sig[j], name, email)
    ensures var after := typed[j := typed[j] + written];
      forall k :: 0 <= k < |after| ==>
        after[k] == start[k] + LabelText(ScanUpTo(sig, j + 1), k, name, email)
  {
    forall k | 0 <= k < |typed|
      ensures typed[j := typed[j] + written][k]
              == start[k] + LabelText(ScanUpTo(sig, j + 1), k, name, email)
    {
      StepText(sig, j, k, name, email);
    }
  }

  /** The contents `Typed` gives each field, spelled out. */
  lemma TypedAt(before: seq<string>, fields: seq<Field>, name: string, email: string)
    requires |before| == |fields|
    ensures forall k :: 0 <= k < |before| ==>
              Typed(before, fields, name, email)[k]
              == before[k] + LabelText(LabelPass(fields), k, name, email)
                 + FallbackName(fields, k, name) + FallbackEmail(fields, k, email)
  {
  }

  /** A loaded form page: its fields and the text each currently holds. */
  class FormPage {
    const fields: seq<Field>
    const contents: array<string>

    predicate Valid() {
      contents.Length == |fields|
    }

    /** A freshly loaded page whose fields are all empty. */
    constructor (fields: seq<Field>)
      ensures Valid() && this.fields == fields && fresh(contents)
      ensures forall i :: 0 <= i < contents.Length ==> contents[i] == ""
    {
      this.fields := fields;
      contents := new string[|fields|](_ => "");
    }

    /** `campos[i].send_keys(text)`: appends `text` to field `i` and touches nothing else. */
    method SendKeys(i: nat, text: string)
      requires Valid() && i < contents.Length
      modifies contents
      ensures contents[..] == old(contents[..])[i := old(contents[i]) + text]
    {
      contents[i] := contents[i] + text;
    }

    /**
     * The label pass of preencher_formulario: in document order, the first field
     * whose label mentions "nome" gets the name; otherwise (`elif`) a field whose
     * label mentions "email" or whose type is "email" gets the e-mail, each at most once.
     */
    method FillByLabel(name: string, email: string) returns (namePlaced: bool, emailPlaced: bool)
      requires Valid()
      modifies contents
      ensures namePlaced == LabelPass(fields).nameAt.Some?
      ensures emailPlaced == LabelPass(fields).emailAt.Some?
      ensures forall k :: 0 <= k < contents.Length ==>
                contents[k] == old(contents[k]) + LabelText(LabelPass(fields), k, name, email)
    {
      namePlaced, emailPlaced := false, false;
      ghost var sig := Signals(fields);
      ghost var start := contents[..];
      for i := 0 to |fields|
        invariant namePlaced == ScanUpTo(sig, i).nameAt.Some?
        invariant emailPlaced == ScanUpTo(sig, i).emailAt.Some?
        invariant forall k :: 0 <= k < |start| ==>
                    contents[..][k] == start[k] + LabelText(ScanUpTo(sig, i), k, name, email)
      {
        ghost var typed := contents[..];
        namePlaced, emailPlaced := LabelStep(sig, i, name, email, namePlaced, emailPlaced);
        StepContents(sig, i, start, typed, StepWrite(ScanUpTo(sig, i), sig[i], name, email), name, email);
      }
      assert forall k :: 0 <= k < contents.Length ==> contents[k] == contents[..][k];
    }

    /**
     * One iteration of the label pass on field `i`: the `if` / `elif` on the
     * field's label and type, with the two "already filled" flags.
     */
    method LabelStep(ghost sig: seq<Signal>, i: nat, name: string, email: string,
                     namePlaced: bool, emailPlaced: bool)
      returns (namePlaced': bool, emailPlaced': bool)
      requires Valid() && sig == Signals(fields) && i < |fields|
      requires namePlaced == ScanUpTo(sig, i).nameAt.Some?
      requires emailPlaced == ScanUpTo(sig, i).emailAt.Some?
      modifies contents
      ensures namePlaced' == ScanUpTo(sig, i + 1).nameAt.Some?
      ensures emailPlaced' == ScanUpTo(sig, i + 1).emailAt.Some?
      ensures contents[..] == old(contents[..])[i := old(contents[i]) + StepWrite(ScanUpTo(sig, i), sig[i], name, email)]
    {
      ghost var s := ScanUpTo(sig, i);
      var g := SignalOf(fields[i]);
      assert g == sig[i];
      assert ScanUpTo(sig, i + 1) == Step(s, g, i);
      namePlaced', emailPlaced' := namePlaced, emailPlaced;
      if !namePlaced && g.mentionsName {
        SendKeys(i, name);
        namePlaced' := true;
      } else if !emailPlaced && g.qualifiesEmail {
        SendKeys(i, email);
        emailPlaced' := true;
      } else {
        assert old(contents[i]) + "" == old(contents[i]);
        assert contents[..] == old(contents[..])[i := old(contents[i])];
      }
    }

    /** The field-filling part of preencher_formulario: the label pass, then the positional fallback. */
    method Fill(name: string, email: string)
      requires Valid()
      modifies contents
      ensures contents[..] == Typed(old(contents[..]), fields, name, email)
    {
      ghost var before := contents[..];
      var namePlaced, emailPlaced := FillByLabel(name, email);
      ghost var labelled := contents[..];
      if !namePlaced && |fields| > 0 {
        SendKeys(0, name);
        namePlaced := true;
      }
      ghost var named := contents[..];
      assert forall k :: 0 <= k < |named| ==> named[k] == labelled[k] + FallbackName(fields, k, name);
      if !emailPlaced && |fields| > 1 {
        SendKeys(1, email);
        emailPlaced := true;
      }
      assert forall k :: 0 <= k < contents.Length ==> contents[k] == named[k] + FallbackEmail(fields, k, email);
      ghost var want := Typed(before, fields, name, email);
      TypedAt(before, fields, name, email);
      assert forall k :: 0 <= k < |want| ==> contents[k] == want[k];
    }
  }

  /** The message preencher_formulario returns once the "Enviar" script ran. */
  const SentMessage: string := "Enviado com sucesso"

  /**
   * preencher_formulario. `load` is the outcome of opening the form and waiting
   * for its fields: the loaded page, or the message of the exception raised.
   * `submit` is the outcome of running the script that clicks "Enviar" and of
   * the settle delay. Any exception becomes `(False, str(e))`.
   */
  method FillForm(load: Result<FormPage, string>, name: string, email: string, submit: Outcome<string>)
    returns (ok: bool, message: string)
    requires load.Success? ==> load.value.Valid()
    modifies if load.Success? then {load.value.contents} else {}
    ensures load.Failure? ==> !ok && message == load.error
    ensures load.Success? ==>
              load.value.contents[..] == Typed(old(load.value.contents[..]), load.value.fields, name, email)
    ensures load.Success? ==> (ok <==> submit.Pass?)
    ensures load.Success? ==> message == if submit.Pass? then SentMessage else submit.error
  {
    if load.Failure? {
      return false, load.error;
    }
    var page := load.value;
    page.Fill(name, email);
    if submit.Fail? {
      return false, submit.error;
    }
    return true, SentMessage;
  }
}
