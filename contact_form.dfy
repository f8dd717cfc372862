/** Client-side validation of the contact form
    (frontend/src/js/modules/contact-form.js). A field's kind is the first non-empty
    of its `data-validate` attribute, `name` attribute, `type` and `placeholder`,
    lower-cased; its trimmed value is then judged by the first rule the kind selects
    (a name needs two characters, an e-mail address the shape of the regex
    `^[^\s@]+@[^\s@]+\.[^\s@]+$`, a message or any textarea ten characters), and the
    verdict is written back as the classes "error" and "success". src/js/main.js
    (lines 73-87 and 258-277) and src/main.js (lines 56-70 and 230-249) carry
    verbatim copies of both functions. */
module ContactForm {
  import opened Wrappers
  import opened Text

  /** The attributes `validateInput` reads. `type` is the element's `type` property
      (the string "textarea" for a textarea) and `placeholder` its placeholder
      property, "" when absent; both attributes are null when absent. */
  datatype Attrs = Attrs(
    dataValidate: Option<string>,
    name: Option<string>,
    typ: string,
    placeholder: string,
    isTextarea: bool)

  /** A JavaScript string is truthy when it is present and not empty. */
  predicate Truthy(s: Option<string>) {
    s.Some? && s.value != []
  }

  /** `(dataValidate || name || type || placeholder || "").toLowerCase()`. */
  function Kind(a: Attrs): (k: string)
    ensures forall i :: 0 <= i < |k| ==> !IsUpperLetter(k[i])
  {
    var raw :=
      if Truthy(a.dataValidate) then a.dataValidate.value
      else if Truthy(a.name) then a.name.value
      else if a.typ != [] then a.typ
      else a.placeholder;
    LowerStr(raw)
  }

  /** The first non-empty string of a list, or "" when there is none. */
  function FirstNonEmpty(xs: seq<string>): (r: string)
    ensures r == [] || r in xs
    ensures forall i :: 0 <= i < |xs| && xs[i] != [] ==> r != []
  {
    if xs == [] then [] else if xs[0] != [] then xs[0] else FirstNonEmpty(xs[1..])
  }

  /** Precedence of the kind: the lower-cased first non-empty of the four sources, in
      the order `data-validate`, `name`, `type`, `placeholder`. */
  lemma {:induction false} KindPrecedence(a: Attrs)
    ensures Kind(a) == LowerStr(FirstNonEmpty([a.dataValidate.GetOr([]), a.name.GetOr([]), a.typ, a.placeholder]))
  {
    var xs := [a.dataValidate.GetOr([]), a.name.GetOr([]), a.typ, a.placeholder];
    assert xs[1..] == [a.name.GetOr([]), a.typ, a.placeholder];
    assert xs[1..][1..] == [a.typ, a.placeholder];
    assert xs[1..][1..][1..] == [a.placeholder];
    assert xs[1..][1..][1..][1..] == [];
    assert FirstNonEmpty(xs[1..][1..][1..]) == a.placeholder;
    assert FirstNonEmpty(xs[1..][1..]) == if a.typ != [] then a.typ else a.placeholder;
    assert a.dataValidate.GetOr([]) != [] <==> Truthy(a.dataValidate);
    assert a.name.GetOr([]) != [] <==> Truthy(a.name);
  }

  // ---------------------------------------------------------------------------
  // The e-mail rule

  /** `[^\s@]+`: one or more characters that are neither whitespace nor "@". */
  predicate Plain(s: string) {
    |s| > 0 && forall k :: 0 <= k < |s| ==> !IsSpace(s[k]) && s[k] != '@'
  }

  /** `/^[^\s@]+@[^\s@]+\.[^\s@]+$/.test(v)`: some "@" at index i and some "." at
      index j split the value into three plain runs. */
  predicate EmailMatches(v: string) {
    exists i, j :: 0 <= i < j < |v| && v[i] == '@' && v[j] == '.' &&
      Plain(v[..i]) && Plain(v[i + 1..j]) && Plain(v[j + 1..])
  }

  /** The part after the "@" has a "." that is neither its first nor its last
      character. */
  predicate InnerDot(d: string) {
    exists k :: 0 < k < |d| - 1 && d[k] == '.'
  }

  /** The shape the regex stands for: no whitespace, exactly one "@" with something
      before it, and after it a "." that is neither first nor last. */
  predicate EmailShape(v: string) {
    && NoSpace(v)
    && '@' in v
    && var i := IndexOf(v, '@');
      i > 0 && '@' !in v[i + 1..] && InnerDot(v[i + 1..])
  }

  lemma {:induction false} EmailMatchesShape(v: string)
    requires EmailMatches(v)
    ensures EmailShape(v)
  {
    var i, j :| 0 <= i < j < |v| && v[i] == '@' && v[j] == '.' &&
      Plain(v[..i]) && Plain(v[i + 1..j]) && Plain(v[j + 1..]);
    PlainSplitNoSpace(v, i, j);
    assert '@' !in v[..i];
    IndexOfUnique(v, '@', i);
    PlainSplitRest(v, i, j);
  }

  /** The three plain runs and the two separators leave no whitespace. */
  lemma {:induction false} PlainSplitNoSpace(v: string, i: nat, j: nat)
    requires i < j < |v| && v[i] == '@' && v[j] == '.'
    requires Plain(v[..i]) && Plain(v[i + 1..j]) && Plain(v[j + 1..])
    ensures NoSpace(v)
  {
    var a, b, c := v[..i], v[i + 1..j], v[j + 1..];
    forall k | 0 <= k < |v| ensures !IsSpace(v[k]) {
      if k < i {
        assert v[k] == a[k];
      } else if i < k < j {
        assert v[k] == b[k - i - 1];
      } else if j < k {
        assert v[k] == c[k - j - 1];
      }
    }
  }

  /** After the "@": no other "@", and a "." with a plain run on either side. */
  lemma {:induction false} PlainSplitRest(v: string, i: nat, j: nat)
    requires i < j < |v| && v[i] == '@' && v[j] == '.'
    requires Plain(v[i + 1..j]) && Plain(v[j + 1..])
    ensures '@' !in v[i + 1..] && InnerDot(v[i + 1..])
  {
    var b, c, d := v[i + 1..j], v[j + 1..], v[i + 1..];
    forall k | 0 <= k < |d| ensures d[k] != '@' {
      if k < |b| {
        assert d[k] == b[k];
      } else if k > |b| {
        assert d[k] == c[k - |b| - 1];
      } else {
        assert d[k] == v[j];
      }
    }
    assert d[|b|] == '.';
  }

  lemma {:induction false} EmailShapeMatches(v: string)
    requires EmailShape(v)
    ensures EmailMatches(v)
  {
    var i := IndexOf(v, '@');
    var d := v[i + 1..];
    var k :| 0 < k < |d| - 1 && d[k] == '.';
    var j := i + 1 + k;
    assert v[j] == d[k];
    var a, b, c := v[..i], v[i + 1..j], v[j + 1..];
    forall m | 0 <= m < |a| ensures !IsSpace(a[m]) && a[m] != '@' {
      assert a[m] == v[m];
    }
    forall m | 0 <= m < |b| ensures !IsSpace(b[m]) && b[m] != '@' {
      assert b[m] == d[m] == v[i + 1 + m];
    }
    forall m | 0 <= m < |c| ensures !IsSpace(c[m]) && c[m] != '@' {
      assert c[m] == d[k + 1 + m] == v[j + 1 + m];
    }
    assert Plain(a) && Plain(b) && Plain(c);
  }

  /** The e-mail regex accepts exactly the values of that shape. */
  lemma {:induction false} EmailIff(v: string)
    ensures EmailMatches(v) <==> EmailShape(v)
  {
    if EmailMatches(v) {
      EmailMatchesShape(v);
    }
    if EmailShape(v) {
      EmailShapeMatches(v);
    }
  }

  // ---------------------------------------------------------------------------
  // The verdict

  /** The if/else chain of `validateInput` on the trimmed value `v`. */
  function Verdict(kind: string, v: string, isTextarea: bool): (ok: bool)
    ensures Contains(kind, "name") ==> (ok <==> |v| >= 2)
    ensures !Contains(kind, "name") && Contains(kind, "email") ==> (ok <==> EmailMatches(v))
    ensures !Contains(kind, "name") && !Contains(kind, "email") && (Contains(kind, "message") || isTextarea) ==>
      (ok <==> |v| >= 10)
    ensures !Contains(kind, "name") && !Contains(kind, "email") && !Contains(kind, "message") && !isTextarea ==> ok
  {
    if Contains(kind, "name") then |v| >= 2
    else if Contains(kind, "email") then EmailMatches(v)
    else if Contains(kind, "message") || isTextarea then |v| >= 10
    else true
  }

  /** `validateInput`'s result for a field with these attributes and this value. */
  function Validate(a: Attrs, value: string): (ok: bool)
    ensures Contains(Kind(a), "name") ==> (ok <==> |Trim(value)| >= 2)
    ensures !Contains(Kind(a), "name") && !Contains(Kind(a), "email") && (Contains(Kind(a), "message") || a.isTextarea) ==>
      (ok <==> |Trim(value)| >= 10)
    ensures !Contains(Kind(a), "name") && !Contains(Kind(a), "email") && !Contains(Kind(a), "message") && !a.isTextarea ==> ok
  {
    Verdict(Kind(a), Trim(value), a.isTextarea)
  }

  /** A value that is all whitespace fails every rule a field can be subject to. */
  lemma {:induction false} BlankFails(a: Attrs, value: string)
    requires forall k :: 0 <= k < |value| ==> IsSpace(value[k])
    requires Contains(Kind(a), "name") || Contains(Kind(a), "email") || Contains(Kind(a), "message") || a.isTextarea
    ensures !Validate(a, value)
  {
    AllBlankTrims(value);
  }

  lemma {:induction false} AllBlankTrims(s: string)
    requires forall k :: 0 <= k < |s| ==> IsSpace(s[k])
    ensures Trim(s) == []
    decreases |s|
  {
    if s != [] {
      AllBlankTrims(s[1..]);
    }
  }

  /** Surrounding whitespace never changes the verdict: validating the trimmed value
      gives the same answer. */
  lemma {:induction false} ValidateIgnoresPadding(a: Attrs, value: string)
    ensures Validate(a, Trim(value)) == Validate(a, value)
  {
    TrimIdempotent(value);
  }

  // ---------------------------------------------------------------------------
  // The form's fields

  class Input {
    const attrs: Attrs
    var value: string
    /** The classes "error" and "success". */
    var error: bool
    var success: bool
    /** `initContactForm` attached the focus and blur handlers. */
    var listening: bool

    constructor (attrs: Attrs, value: string)
      ensures this.attrs == attrs && this.value == value
      ensures !error && !success && !listening
    {
      this.attrs := attrs;
      this.value := value;
      error := false;
      success := false;
      listening := false;
    }

    /** The user edits the field. */
    method Edit(value: string)
      modifies this`value
      ensures this.value == value
    {
      this.value := value;
    }

    /** `validateInput(input)`: exactly one of the two classes, "error" exactly when
        the verdict is negative, and the verdict returned. */
    method ValidateInput() returns (ok: bool)
      modifies this`error, this`success
      ensures ok == Validate(attrs, value)
      ensures error == !ok && success == ok
    {
      var v := Trim(value);
      var kind := Kind(attrs);
      ok := true;
      if Contains(kind, "name") {
        ok := |v| >= 2;
      } else if Contains(kind, "email") {
        ok := EmailMatches(v);
      } else if Contains(kind, "message") || attrs.isTextarea {
        ok := |v| >= 10;
      }
      error := !ok;
      success := ok;
    }

    /** The focus handler removes both classes; without a handler nothing happens. */
    method Focus()
      modifies this`error, this`success
      ensures listening ==> !error && !success
      ensures !listening ==> error == old(error) && success == old(success)
    {
      if listening {
        error := false;
        success := false;
      }
    }

    /** The blur handler re-validates; without a handler nothing happens. */
    method Blur()
      modifies this`error, this`success
      ensures listening ==> error == !Validate(attrs, value) && success == Validate(attrs, value)
      ensures !listening ==> error == old(error) && success == old(success)
    {
      if listening {
        var _ := ValidateInput();
      }
    }
  }

  /** A form element and its `input, textarea` descendants in document order. */
  class Form {
    const inputs: seq<Input>

    constructor (inputs: seq<Input>)
      ensures this.inputs == inputs
    {
      this.inputs := inputs;
    }
  }

  /** The `||` chain that looks the form up: `#contact form`, then
      `[data-contact-form]`, then the form around the "Your Name" input, then the
      parent of the div around it; the first that exists. */
  function FindForm(candidates: seq<Form?>): (f: Form?)
    ensures f == null <==> forall i :: 0 <= i < |candidates| ==> candidates[i] == null
    ensures f != null ==>
      exists i :: 0 <= i < |candidates| && candidates[i] == f && (forall k :: 0 <= k < i ==> candidates[k] == null)
  {
    if candidates == [] then null
    else if candidates[0] != null then candidates[0]
    else
      var f := FindForm(candidates[1..]);
      assert forall k :: 0 <= k < |candidates| - 1 ==> candidates[1..][k] == candidates[k + 1];
      f
  }

  /** `initContactForm` once the form is looked up (`FindForm`): attach the handlers
      to every field of the form, or to nothing when there is no form. Only the
      `listening` flags change. */
  method InitContactForm(form: Form?)
    modifies if form == null then {} else set i | i in form.inputs
    ensures form != null ==> forall i :: i in form.inputs ==> i.listening
    ensures form != null ==> forall i :: i in form.inputs ==>
      i.value == old(i.value) && i.error == old(i.error) && i.success == old(i.success)
  {
    if form == null {
      return;
    }
    var inputs := form.inputs;
    var k := 0;
    while k < |inputs|
      invariant 0 <= k <= |inputs|
      invariant forall m :: 0 <= m < k ==> inputs[m].listening
      invariant forall i :: i in inputs ==>
        i.value == old(i.value) && i.error == old(i.error) && i.success == old(i.success)
    {
      inputs[k].listening := true;
      k := k + 1;
    }
  }
}
