/** The prompt generator form: six free-text fields assembled into one
    prompt. */
module Composer {
  import opened Wrappers
  import opened Text

  /** The values of the six inputs, in form order. */
  datatype GeneratorForm = GeneratorForm(
    subject: string,
    composition: string,
    action: string,
    location: string,
    style: string,
    editing: string)

  const Empty := GeneratorForm("", "", "", "", "", "")

  const CompositionLabel := "構圖："
  const ActionLabel := "動作："
  const LocationLabel := "地點："
  const StyleLabel := "風格："
  const EditingLabel := "編輯指令："

  /** The full-width comma that joins the parts. */
  const Separator := "，"

  /** One input with the label its part is given. */
  datatype Field = Field(value: string, prefix: string)

  /** The inputs in the order their parts are joined; the subject carries
      no label. */
  function Fields(f: GeneratorForm): seq<Field> {
    [ Field(f.subject, ""),
      Field(f.composition, CompositionLabel),
      Field(f.action, ActionLabel),
      Field(f.location, LocationLabel),
      Field(f.style, StyleLabel),
      Field(f.editing, EditingLabel) ]
  }

  /** The `inputs` object: every value trimmed. */
  function Trimmed(f: GeneratorForm): GeneratorForm {
    GeneratorForm(Trim(f.subject), Trim(f.composition), Trim(f.action),
                  Trim(f.location), Trim(f.style), Trim(f.editing))
  }

  /** Each field of the trimmed form is the trimmed field, with its label. */
  lemma TrimmedFields(f: GeneratorForm)
    ensures forall k :: 0 <= k < 6 ==>
      Fields(Trimmed(f))[k] == Field(Trim(Fields(f)[k].value), Fields(f)[k].prefix)
  {
  }

  /** The part a trimmed field contributes: nothing when it is empty,
      otherwise its label followed by its value. */
  function Part(x: Field): seq<string> {
    if x.value == "" then [] else [x.prefix + x.value]
  }

  /** The parts of the given fields, in order. */
  function Collect(fs: seq<Field>): seq<string> {
    if fs == [] then [] else Part(fs[0]) + Collect(fs[1..])
  }

  /** There are no parts exactly when every field is empty. */
  lemma {:induction false} CollectEmpty(fs: seq<Field>)
    ensures Collect(fs) == [] <==> forall k :: 0 <= k < |fs| ==> fs[k].value == ""
  {
    if fs != [] {
      CollectEmpty(fs[1..]);
      assert forall k :: 1 <= k < |fs| ==> fs[k] == fs[1..][k - 1];
    }
  }

  /** No part is empty. */
  lemma {:induction false} CollectNonEmpty(fs: seq<Field>)
    ensures forall k :: 0 <= k < |Collect(fs)| ==> Collect(fs)[k] != ""
  {
    if fs != [] {
      CollectNonEmpty(fs[1..]);
      var head, rest := Part(fs[0]), Collect(fs[1..]);
      assert Collect(fs) == head + rest;
      assert forall k :: 0 <= k < |head| ==> head[k] != "";
    }
  }

  /** Every input is white space only. */
  predicate AllBlank(f: GeneratorForm) {
    forall k :: 0 <= k < |Fields(f)| ==> IsBlank(Fields(f)[k].value)
  }

  /** `generatePrompt`'s text: None (the "fill in at least one field"
      warning) exactly when every input is blank; otherwise a non-empty
      prompt. */
  function Compose(f: GeneratorForm): (r: Option<string>)
    ensures r.None? <==> AllBlank(f)
    ensures r.Some? ==> r.value != ""
  {
    var parts := Collect(Fields(Trimmed(f)));
    assert parts == [] <==> AllBlank(f) by {
      TrimmedFields(f);
      CollectEmpty(Fields(Trimmed(f)));
      forall k | 0 <= k < 6 { TrimSpec(Fields(f)[k].value); }
    }
    assert parts != [] ==> parts[0] != "" by { CollectNonEmpty(Fields(Trimmed(f))); }
    if parts == [] then None
    else Some(Join(parts, Separator))
  }

  /** The number of non-empty fields. */
  function Filled(fs: seq<Field>): nat {
    if fs == [] then 0 else (if fs[0].value == "" then 0 else 1) + Filled(fs[1..])
  }

  /** One part per non-empty field. */
  lemma {:induction false} CollectCount(fs: seq<Field>)
    ensures |Collect(fs)| == Filled(fs)
  {
    if fs != [] {
      CollectCount(fs[1..]);
    }
  }

  /** The first part is the first non-empty field with its own label, even
      when that field is not the subject. */
  lemma {:induction false} CollectFirst(fs: seq<Field>, i: int)
    requires 0 <= i < |fs| && fs[i].value != ""
    requires forall k :: 0 <= k < i ==> fs[k].value == ""
    ensures Collect(fs) != [] && Collect(fs)[0] == fs[i].prefix + fs[i].value
  {
    if i > 0 {
      assert fs[1..][i - 1] == fs[i];
      CollectFirst(fs[1..], i - 1);
    }
  }

  /** Every non-empty field gives its labelled part, at the position
      counted by the non-empty fields before it: the parts follow the
      fields' order. */
  lemma {:induction false} CollectOrder(fs: seq<Field>, k: int)
    requires 0 <= k < |fs| && fs[k].value != ""
    ensures Filled(fs[..k]) < |Collect(fs)|
    ensures Collect(fs)[Filled(fs[..k])] == fs[k].prefix + fs[k].value
  {
    if k > 0 {
      assert fs[1..][k - 1] == fs[k];
      assert fs[..k][1..] == fs[1..][..k - 1];
      CollectOrder(fs[1..], k - 1);
    }
  }

  /** One more field adds its part, if any, after the others. */
  lemma {:induction false} CollectSnoc(fs: seq<Field>, x: Field)
    ensures Collect(fs + [x]) == Collect(fs) + Part(x)
  {
    if fs == [] {
      assert [x][1..] == [];
    } else {
      assert (fs + [x])[1..] == fs[1..] + [x];
      CollectSnoc(fs[1..], x);
    }
  }

  /** The prompt begins with the first filled input: the bare trimmed
      subject when there is one, the labelled composition when the subject
      is blank and the composition is not, and so on. */
  lemma ComposeFirstPart(f: GeneratorForm, i: int)
    requires 0 <= i < 6 && Trim(Fields(f)[i].value) != ""
    requires forall k :: 0 <= k < i ==> Trim(Fields(f)[k].value) == ""
    ensures Compose(f).Some?
    ensures Fields(f)[i].prefix + Trim(Fields(f)[i].value) <= Compose(f).value
    ensures i == 0 ==> Trim(f.subject) <= Compose(f).value
  {
    TrimmedFields(f);
    CollectFirst(Fields(Trimmed(f)), i);
  }

  /** Every filled input appears in the prompt's parts, behind its label
      (none for the subject), after the parts of the filled inputs before
      it; the prompt joins those parts with the full-width comma. */
  lemma ComposeOrder(f: GeneratorForm, k: int)
    requires 0 <= k < 6 && Trim(Fields(f)[k].value) != ""
    ensures Compose(f).Some?
    ensures var fs := Fields(Trimmed(f));
      && Compose(f).value == Join(Collect(fs), Separator)
      && Filled(fs[..k]) < |Collect(fs)|
      && Collect(fs)[Filled(fs[..k])] == Fields(f)[k].prefix + Trim(Fields(f)[k].value)
  {
    TrimmedFields(f);
    CollectOrder(Fields(Trimmed(f)), k);
  }

  /** The editing instruction's part, if any, follows the parts of the
      other fields. */
  lemma CollectEditingLast(t: GeneratorForm)
    ensures Collect(Fields(t)) == Collect(Fields(t.(editing := ""))) + Part(Field(t.editing, EditingLabel))
  {
    var front := Fields(t)[..5];
    assert Fields(t) == front + [Field(t.editing, EditingLabel)];
    assert Fields(t.(editing := "")) == front + [Field("", EditingLabel)];
    CollectSnoc(front, Field(t.editing, EditingLabel));
    CollectSnoc(front, Field("", EditingLabel));
  }

  /** A filled editing instruction comes last: the prompt of the other
      inputs, the full-width comma, then the labelled instruction. */
  lemma ComposeEditingLast(f: GeneratorForm)
    requires Trim(f.editing) != ""
    requires !AllBlank(f.(editing := ""))
    ensures Compose(f) == Some(Compose(f.(editing := "")).value + Separator + (EditingLabel + Trim(f.editing)))
  {
    var t := Trimmed(f);
    TrimUnpadded("");
    assert Trimmed(f.(editing := "")) == t.(editing := "");
    CollectEditingLast(t);
    var front := Collect(Fields(t.(editing := "")));
    assert Compose(f.(editing := "")) == Some(Join(front, Separator));
    JoinSnoc(front, EditingLabel + Trim(f.editing), Separator);
  }

  /** White space around the inputs never changes the generated prompt. */
  lemma ComposeIgnoresPadding(f: GeneratorForm)
    ensures Compose(Trimmed(f)) == Compose(f)
  {
    TrimIdempotent(f.subject);
    TrimIdempotent(f.composition);
    TrimIdempotent(f.action);
    TrimIdempotent(f.location);
    TrimIdempotent(f.style);
    TrimIdempotent(f.editing);
    assert Trimmed(Trimmed(f)) == Trimmed(f);
  }

  /** Empty fields contribute nothing: the parts after a run of empty
      fields are the parts of the rest. */
  lemma {:induction false} CollectSkipsBlanks(fs: seq<Field>, i: int)
    requires 0 <= i <= |fs|
    requires forall k :: 0 <= k < i ==> fs[k].value == ""
    ensures Collect(fs) == Collect(fs[i..])
  {
    if i > 0 {
      CollectSkipsBlanks(fs[1..], i - 1);
      assert fs[1..][i - 1..] == fs[i..];
    }
  }

  /** A single non-empty field gives its own part alone. */
  lemma CollectSingle(fs: seq<Field>, i: int)
    requires 0 <= i < |fs|
    requires forall k :: 0 <= k < |fs| ==> (fs[k].value == "" <==> k != i)
    ensures Collect(fs) == [fs[i].prefix + fs[i].value]
  {
    CollectSkipsBlanks(fs, i);
    CollectSkipsBlanks(fs[i + 1..], |fs| - i - 1);
    assert fs[i + 1..][|fs| - i - 1..] == [];
    assert Collect(fs[i..]) == Part(fs[i]) + Collect(fs[i + 1..]);
  }

  /** A single filled input gives its own part alone: the bare trimmed
      subject, or any other input behind its label, with no separator. */
  lemma ComposeSingle(f: GeneratorForm, i: int)
    requires 0 <= i < 6
    requires forall k :: 0 <= k < 6 ==> (Trim(Fields(f)[k].value) == "" <==> k != i)
    ensures Compose(f) == Some(Fields(f)[i].prefix + Trim(Fields(f)[i].value))
  {
    TrimmedFields(f);
    CollectSingle(Fields(Trimmed(f)), i);
  }

  /** A subject and a style, nothing else, give two parts: the bare
      subject and the labelled style. */
  lemma CollectSubjectAndStyle(t: GeneratorForm)
    requires t.subject != "" && t.style != ""
    requires t.composition == "" && t.action == "" && t.location == "" && t.editing == ""
    ensures Collect(Fields(t)) == [t.subject, StyleLabel + t.style]
  {
    var fs := Fields(t);
    assert Collect(fs[4..]) == [StyleLabel + t.style] by {
      assert fs[4..][1..] == fs[5..];
      assert Collect(fs[5..]) == [] by {
        assert fs[5..][1..] == [];
      }
    }
    assert Collect(fs[1..]) == Collect(fs[4..]) by {
      CollectSkipsBlanks(fs[1..], 3);
      assert fs[1..][3..] == fs[4..];
    }
    assert Part(fs[0]) == [t.subject] by {
      assert "" + t.subject == t.subject;
    }
  }

  /** ... and so the prompt "subject，風格：style". */
  lemma ComposeSubjectAndStyle(f: GeneratorForm)
    requires Trim(f.subject) != "" && Trim(f.style) != ""
    requires Trim(f.composition) == "" && Trim(f.action) == "" && Trim(f.location) == "" && Trim(f.editing) == ""
    ensures Compose(f) == Some(Trim(f.subject) + Separator + (StyleLabel + Trim(f.style)))
  {
    CollectSubjectAndStyle(Trimmed(f));
    JoinPair(Trim(f.subject), StyleLabel + Trim(f.style), Separator);
  }

  /** Two parts are joined by one separator. */
  lemma JoinPair(a: string, b: string, sep: string)
    ensures Join([a, b], sep) == a + sep + b
  {
    assert [a, b][1..] == [b];
  }

  /** "a cat" alone is the prompt, unlabelled. */
  lemma ExampleSubject()
    ensures Compose(Empty.(subject := "a cat")) == Some("a cat")
  {
    TrimUnpadded("a cat");
    ComposeSingle(Empty.(subject := "a cat"), 0);
    assert "" + "a cat" == "a cat";
  }

  /** "a cat" with the style "watercolor" gives "a cat，風格：watercolor". */
  lemma ExampleSubjectAndStyle()
    ensures Compose(Empty.(subject := "a cat", style := "watercolor"))
         == Some("a cat" + Separator + (StyleLabel + "watercolor"))
  {
    TrimUnpadded("a cat");
    TrimUnpadded("watercolor");
    ComposeSubjectAndStyle(Empty.(subject := "a cat", style := "watercolor"));
  }

  /** The style alone keeps its label. */
  lemma ExampleStyle()
    ensures Compose(Empty.(style := "watercolor")) == Some(StyleLabel + "watercolor")
  {
    TrimUnpadded("watercolor");
    ComposeSingle(Empty.(style := "watercolor"), 4);
  }
}
