/** A prompt template: fixed text with named `{slot}` placeholders and the
    list of input variables it declares. Rendering substitutes the supplied
    values literally; a value is never itself read as a template. */
module Prompt {
  import opened Strings

  datatype Segment = Lit(text: string) | Slot(name: string)

  datatype Template = Template(inputVariables: seq<string>, segments: seq<Segment>)

  datatype Rendering = Rendered(text: string) | MissingVariable(name: string)

  /** The placeholder names of the segments, in order of appearance. */
  function Placeholders(segments: seq<Segment>): seq<string> {
    if |segments| == 0 then []
    else (if segments[0].Slot? then [segments[0].name] else []) + Placeholders(segments[1..])
  }

  /** The declared input variables are exactly the placeholders of the text,
      which is what a template is checked for when it is built. */
  predicate WellFormed(t: Template) {
    (set n | n in t.inputVariables) == (set n | n in Placeholders(t.segments))
  }

  /** The template written as a format string, each slot as `{name}`. */
  function Text(segments: seq<Segment>): string {
    if |segments| == 0 then ""
    else (match segments[0]
          case Lit(x) => x
          case Slot(n) => "{" + n + "}") + Text(segments[1..])
  }

  /** The first of `names` that has no value in `env`, if any. */
  function FirstMissing(names: seq<string>, env: map<string, string>): (r: Option<string>)
    ensures r.None? <==> forall n | n in names :: n in env
    ensures r.Some? ==> r.value in names && r.value !in env
    ensures r.Some? ==> exists i | 0 <= i < |names| ::
      names[i] == r.value && forall j | 0 <= j < i :: names[j] in env
  {
    if |names| == 0 then None
    else if names[0] !in env then Some(names[0])
    else FirstMissing(names[1..], env)
  }

  /** Every slot among the segments has a value in `env`. */
  predicate Supplied(segments: seq<Segment>, env: map<string, string>) {
    forall i | 0 <= i < |segments| :: segments[i].Slot? ==> segments[i].name in env
  }

  /** Having a value for every placeholder name is having one for every slot. */
  lemma {:induction false} SuppliedPlaceholders(segments: seq<Segment>, env: map<string, string>)
    ensures Supplied(segments, env) <==> forall n | n in Placeholders(segments) :: n in env
  {
    if |segments| > 0 {
      SuppliedPlaceholders(segments[1..], env);
      assert Supplied(segments, env) <==>
        (segments[0].Slot? ==> segments[0].name in env) && Supplied(segments[1..], env);
    }
  }

  /** What one segment contributes to the rendered text. */
  function Piece(s: Segment, env: map<string, string>): string
    requires s.Slot? ==> s.name in env
  {
    match s
    case Lit(x) => x
    case Slot(n) => env[n]
  }

  /** The segments with every slot replaced by its value. */
  function Fill(segments: seq<Segment>, env: map<string, string>): string
    requires Supplied(segments, env)
  {
    if |segments| == 0 then ""
    else Piece(segments[0], env) + Fill(segments[1..], env)
  }

  /** `template.format(**env)`: scans the placeholders in the order of the
      text and fails on the first one without a value; otherwise the filled
      text. Extra names in `env` are ignored. */
  function Render(t: Template, env: map<string, string>): (r: Rendering)
    ensures r.Rendered? <==> forall n | n in Placeholders(t.segments) :: n in env
    ensures r.MissingVariable? ==> exists i | 0 <= i < |Placeholders(t.segments)| ::
      Placeholders(t.segments)[i] == r.name && r.name !in env
      && forall j | 0 <= j < i :: Placeholders(t.segments)[j] in env
  {
    match FirstMissing(Placeholders(t.segments), env)
    case Some(n) => MissingVariable(n)
    case None =>
      SuppliedPlaceholders(t.segments, env);
      Rendered(Fill(t.segments, env))
  }

  /** For a well-formed template, rendering succeeds exactly when every
      declared input variable has a value. */
  lemma RenderDeclared(t: Template, env: map<string, string>)
    requires WellFormed(t)
    ensures Render(t, env).Rendered? <==> forall n | n in t.inputVariables :: n in env
  {
    var declared, slots := set m | m in t.inputVariables, set m | m in Placeholders(t.segments);
    forall n | n in t.inputVariables ensures n in Placeholders(t.segments) {
      assert n in declared;
    }
    forall n | n in Placeholders(t.segments) ensures n in t.inputVariables {
      assert n in slots;
    }
  }

  /** Every placeholder of a prefix or suffix is a placeholder of the whole. */
  lemma {:induction false} PlaceholdersAppend(a: seq<Segment>, b: seq<Segment>)
    ensures Placeholders(a + b) == Placeholders(a) + Placeholders(b)
  {
    if |a| > 0 {
      assert (a + b)[1..] == a[1..] + b;
      PlaceholdersAppend(a[1..], b);
    } else {
      assert a + b == b;
    }
  }

  /** Filling distributes over concatenation of segment lists. */
  lemma {:induction false} FillAppend(a: seq<Segment>, b: seq<Segment>, env: map<string, string>)
    requires Supplied(a, env) && Supplied(b, env)
    ensures Supplied(a + b, env) && Fill(a + b, env) == Fill(a, env) + Fill(b, env)
  {
    if |a| > 0 {
      assert (a + b)[1..] == a[1..] + b;
      FillAppend(a[1..], b, env);
    } else {
      assert a + b == b;
    }
  }

  /** Filling keeps each segment in place between the fillings of the
      segments before and after it. */
  lemma FillAround(segs: seq<Segment>, env: map<string, string>, i: nat)
    requires Supplied(segs, env) && i < |segs|
    ensures segs[i].Slot? ==> segs[i].name in env
    ensures Supplied(segs[..i], env) && Supplied(segs[i + 1..], env)
    ensures Fill(segs, env) == Fill(segs[..i], env) + Piece(segs[i], env) + Fill(segs[i + 1..], env)
  {
    var front, mid, back := segs[..i], [segs[i]], segs[i + 1..];
    assert segs == front + (mid + back);
    assert Supplied(front, env) by {
      forall j | 0 <= j < |front| && front[j].Slot? ensures front[j].name in env {
        assert front[j] == segs[j];
      }
    }
    assert Supplied(back, env) by {
      forall j | 0 <= j < |back| && back[j].Slot? ensures back[j].name in env {
        assert back[j] == segs[i + 1 + j];
      }
    }
    assert Supplied(mid, env) by {
      assert mid[0] == segs[i];
    }
    assert Fill(mid, env) == Piece(segs[i], env) + "";
    FillAppend(mid, back, env);
    FillAppend(front, mid + back, env);
  }

  /** In a successful rendering, each segment appears verbatim between the
      renderings of the segments before it and after it: a literal as
      written, a slot as exactly the supplied value. */
  lemma SegmentVerbatim(t: Template, env: map<string, string>, i: nat)
    requires Render(t, env).Rendered? && i < |t.segments|
    ensures t.segments[i].Slot? ==> t.segments[i].name in env
    ensures Supplied(t.segments[..i], env) && Supplied(t.segments[i + 1..], env)
    ensures
      var segs := t.segments;
      Render(t, env).text == Fill(segs[..i], env) + Piece(segs[i], env) + Fill(segs[i + 1..], env)
  {
    SuppliedPlaceholders(t.segments, env);
    FillAround(t.segments, env, i);
  }

  /** A successful rendering contains the value of every placeholder. */
  lemma RenderContainsValues(t: Template, env: map<string, string>, n: string)
    requires Render(t, env).Rendered? && n in Placeholders(t.segments)
    ensures n in env && Contains(Render(t, env).text, env[n])
  {
    var i := PlaceholderIndex(t.segments, n);
    SegmentVerbatim(t, env, i);
    var segs := t.segments;
    ContainsSelf(env[n]);
    ContainsConcat(Fill(segs[..i], env), env[n], env[n]);
    ContainsConcat(Fill(segs[..i], env) + env[n], Fill(segs[i + 1..], env), env[n]);
  }

  /** The name of every slot is a placeholder name. */
  lemma {:induction false} SlotIsPlaceholder(segments: seq<Segment>, i: nat)
    requires i < |segments| && segments[i].Slot?
    ensures segments[i].name in Placeholders(segments)
  {
    if i > 0 {
      SlotIsPlaceholder(segments[1..], i - 1);
    }
  }

  /** Where a placeholder name occurs among the segments. */
  lemma {:induction false} PlaceholderIndex(segments: seq<Segment>, n: string) returns (i: nat)
    requires n in Placeholders(segments)
    ensures i < |segments| && segments[i] == Slot(n)
  {
    if segments[0] == Slot(n) {
      i := 0;
    } else {
      assert n in Placeholders(segments[1..]);
      var j := PlaceholderIndex(segments[1..], n);
      i := j + 1;
    }
  }

  /** Names outside the template do not change its rendering: two
      environments that agree on the template's names render alike. */
  lemma ExtraVariablesIgnored(t: Template, env: map<string, string>, env': map<string, string>)
    requires forall n | n in Placeholders(t.segments) :: (n in env <==> n in env') && (n in env ==> env[n] == env'[n])
    ensures Render(t, env) == Render(t, env')
  {
    FirstMissingAgree(Placeholders(t.segments), env, env');
    if Render(t, env).Rendered? {
      SuppliedPlaceholders(t.segments, env);
      SuppliedPlaceholders(t.segments, env');
      forall i | 0 <= i < |t.segments| && t.segments[i].Slot?
        ensures env[t.segments[i].name] == env'[t.segments[i].name]
      {
        SlotIsPlaceholder(t.segments, i);
      }
      FillAgree(t.segments, env, env');
    }
  }

  lemma {:induction false} FirstMissingAgree(names: seq<string>, env: map<string, string>, env': map<string, string>)
    requires forall n | n in names :: (n in env <==> n in env')
    ensures FirstMissing(names, env) == FirstMissing(names, env')
  {
    if |names| > 0 {
      FirstMissingAgree(names[1..], env, env');
    }
  }

  lemma {:induction false} FillAgree(segments: seq<Segment>, env: map<string, string>, env': map<string, string>)
    requires Supplied(segments, env) && Supplied(segments, env')
    requires forall i | 0 <= i < |segments| && segments[i].Slot? :: env[segments[i].name] == env'[segments[i].name]
    ensures Fill(segments, env) == Fill(segments, env')
  {
    if |segments| > 0 {
      FillAgree(segments[1..], env, env');
    }
  }

  /** Writing out two lists of segments one after the other is writing out
      their concatenation. */
  lemma {:induction false} TextAppend(a: seq<Segment>, b: seq<Segment>)
    ensures Text(a + b) == Text(a) + Text(b)
  {
    if |a| > 0 {
      assert (a + b)[1..] == a[1..] + b;
      TextAppend(a[1..], b);
    } else {
      assert a + b == b;
    }
  }

  /** The segments of a template with one slot between two literals. */
  function OneSlot(before: string, n: string, after: string): seq<Segment> {
    [Lit(before), Slot(n), Lit(after)]
  }

  /** The segments of a template with two slots separated by literals. */
  function TwoSlots(a: string, n1: string, b: string, n2: string, c: string): seq<Segment> {
    [Lit(a), Slot(n1), Lit(b), Slot(n2), Lit(c)]
  }

  /** One slot between two literals: its only placeholder, and its format string. */
  lemma OneSlotShape(before: string, n: string, after: string)
    ensures OneSlot(before, n, after) == [Lit(before)] + [Slot(n)] + [Lit(after)]
    ensures Placeholders(OneSlot(before, n, after)) == [n]
    ensures Text(OneSlot(before, n, after)) == before + ("{" + n + "}") + after
  {
    var l, m, r := [Lit(before)], [Slot(n)], [Lit(after)];
    assert OneSlot(before, n, after) == l + m + r;
    PlaceholdersAppend(l + m, r);
    PlaceholdersAppend(l, m);
    TextAppend(l + m, r);
    TextAppend(l, m);
    assert Text(r) == after + "";
  }

  /** Filling one slot between two literals puts its value between them. */
  lemma OneSlotFill(before: string, n: string, after: string, env: map<string, string>)
    requires n in env
    ensures Supplied(OneSlot(before, n, after), env)
    ensures Fill(OneSlot(before, n, after), env) == before + env[n] + after
  {
    var l, m, r := [Lit(before)], [Slot(n)], [Lit(after)];
    OneSlotShape(before, n, after);
    assert Supplied(l, env) && Supplied(m, env) && Supplied(r, env);
    FillAppend(l, m, env);
    FillAppend(l + m, r, env);
    assert Fill(r, env) == after + "";
    assert Fill(m, env) == env[n] + "";
  }

  /** A template of one slot between two literals, declaring that slot, is
      well formed and renders to the value between the literals, or fails
      on the slot's name. */
  lemma RenderOneSlot(before: string, n: string, after: string, env: map<string, string>)
    ensures var t := Template([n], OneSlot(before, n, after));
      && WellFormed(t)
      && Render(t, env) == if n in env then Rendered(before + env[n] + after) else MissingVariable(n)
  {
    OneSlotShape(before, n, after);
    if n in env {
      OneSlotFill(before, n, after, env);
    }
  }

  /** Two slots separated by literals: their placeholders in order, and the format string. */
  lemma TwoSlotsShape(a: string, n1: string, b: string, n2: string, c: string)
    ensures Placeholders(TwoSlots(a, n1, b, n2, c)) == [n1, n2]
    ensures Text(TwoSlots(a, n1, b, n2, c)) == a + ("{" + n1 + "}") + b + ("{" + n2 + "}") + c
  {
    var front := OneSlot(a, n1, b);
    var back := [Slot(n2), Lit(c)];
    assert TwoSlots(a, n1, b, n2, c) == front + back;
    OneSlotShape(a, n1, b);
    PlaceholdersAppend(front, back);
    TextAppend(front, back);
    assert back == [Slot(n2)] + [Lit(c)];
    PlaceholdersAppend([Slot(n2)], [Lit(c)]);
    TextAppend([Slot(n2)], [Lit(c)]);
    assert Text([Lit(c)]) == c + "";
  }

  /** Filling two slots separated by literals puts each value in its place. */
  lemma TwoSlotsFill(a: string, n1: string, b: string, n2: string, c: string, env: map<string, string>)
    requires n1 in env && n2 in env
    ensures Supplied(TwoSlots(a, n1, b, n2, c), env)
    ensures Fill(TwoSlots(a, n1, b, n2, c), env) == a + env[n1] + b + env[n2] + c
  {
    var front := OneSlot(a, n1, b);
    var back := [Slot(n2), Lit(c)];
    assert TwoSlots(a, n1, b, n2, c) == front + back;
    OneSlotFill(a, n1, b, env);
    assert Supplied(back, env);
    FillAppend(front, back, env);
    assert back[1..] == [Lit(c)] && back[1..][1..] == [];
    assert Fill(back[1..], env) == c + "";
    assert Fill(back, env) == env[n2] + (c + "");
  }

  /** A template of two slots separated by literals, declaring those slots,
      is well formed and renders to the two values in place, or fails on
      the first name without a value. */
  lemma RenderTwoSlots(a: string, n1: string, b: string, n2: string, c: string, env: map<string, string>)
    ensures var t := Template([n1, n2], TwoSlots(a, n1, b, n2, c));
      && WellFormed(t)
      && Render(t, env) ==
        if n1 !in env then MissingVariable(n1)
        else if n2 !in env then MissingVariable(n2)
        else Rendered(a + env[n1] + b + env[n2] + c)
  {
    TwoSlotsShape(a, n1, b, n2, c);
    var t := Template([n1, n2], TwoSlots(a, n1, b, n2, c));
    assert Placeholders(t.segments)[1..] == [n2];
    if n1 in env && n2 in env {
      TwoSlotsFill(a, n1, b, n2, c, env);
    }
  }
}
