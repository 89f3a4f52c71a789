/** `str.format(**variables)` on the folder template (main.py:733), for plain
    `{name}` replacement fields and the `{{` / `}}` escapes. */
module Format {
  import opened Wrappers
  import opened Text
  import opened Json
  import opened Tags
  import opened Variables

  /** A rendered template, a `format` exception (`ValueError`, `KeyError`,
      `IndexError`: the caller treats them alike), or a field using syntax this
      model does not cover (conversions, format specs, attribute or index
      access, nested fields). */
  datatype Rendering = Rendered(text: string) | FormatError | Unsupported

  /** The list of tag records as Python holds it. */
  function TagsJson(tags: seq<Tag>): (j: Json)
    ensures j.JList? && |j.items| == |tags|
  {
    JList(seq(|tags|, i requires 0 <= i < |tags| =>
      JObj([Field("tag", JStr(tags[i].tag)), Field("translation", tags[i].translation)])))
  }

  /** `format(value, "")`: the text itself, or the `str()` of the tag list. */
  function ValueText(env: Env, v: VarValue): string {
    match v
    case Text(s) => s
    case TagList(tags) => env.repr(TagsJson(tags))
  }

  /** Characters that make a field more than a plain keyword name. */
  predicate IsFieldSyntax(c: char) {
    c == '{' || c == '[' || c == '.' || c == ':' || c == '!'
  }

  /** Index of the first `}` in `t` at or after `i`. */
  function CloseBrace(t: string, i: nat): (r: Option<nat>)
    requires i <= |t|
    ensures r.Some? ==> i <= r.value < |t| && t[r.value] == '}' && (forall k :: i <= k < r.value ==> t[k] != '}')
    ensures r.None? ==> forall k :: i <= k < |t| ==> t[k] != '}'
    decreases |t| - i
  {
    if i == |t| then None else if t[i] == '}' then Some(i) else CloseBrace(t, i + 1)
  }

  /** The replacement text of one field `{name}`. With no positional arguments
      an empty or all-digit name raises `IndexError`; an unknown keyword raises
      `KeyError`. */
  function ReplaceField(env: Env, vars: Table, name: string): Rendering {
    if exists k :: 0 <= k < |name| && IsFieldSyntax(name[k]) then Unsupported
    else if name == "" || AllDigits(name) then FormatError
    else if name in vars then Rendered(ValueText(env, vars[name]))
    else FormatError
  }

  /** Literal text in front of a rendering. */
  function Prefix(s: string, r: Rendering): Rendering {
    if r.Rendered? then Rendered(s + r.text) else r
  }

  /** Two renderings one after the other; the first failure wins. */
  function Then(a: Rendering, b: Rendering): Rendering {
    if a.Rendered? then Prefix(a.text, b) else a
  }

  /** `template.format(**vars)`, scanning left to right as Python does. */
  function Render(env: Env, vars: Table, t: string): Rendering
    decreases |t|
  {
    if t == [] then Rendered("")
    else if t[0] == '{' then
      if |t| >= 2 && t[1] == '{' then Prefix("{", Render(env, vars, t[2..]))
      else
        match CloseBrace(t, 1)
        case None => FormatError
        case Some(j) => Then(ReplaceField(env, vars, t[1..j]), Render(env, vars, t[j + 1..]))
    else if t[0] == '}' then
      if |t| >= 2 && t[1] == '}' then Prefix("}", Render(env, vars, t[2..])) else FormatError
    else Prefix([t[0]], Render(env, vars, t[1..]))
  }

  // ---------------------------------------------------------------------------
  // Reference definition: a template as literal text and named fields

  datatype Segment = Lit(text: string) | Ref(name: string)

  /** Literal text written for `format`: braces doubled. */
  function Escape(s: string): string
    decreases |s|
  {
    if s == [] then []
    else (if s[0] == '{' || s[0] == '}' then [s[0], s[0]] else [s[0]]) + Escape(s[1..])
  }

  /** The template text of a list of segments. */
  function Unparse(segs: seq<Segment>): string
    decreases |segs|
  {
    if segs == [] then []
    else
      (match segs[0] case Lit(s) => Escape(s) case Ref(n) => "{" + n + "}") + Unparse(segs[1..])
  }

  /** A field name `format` looks up as a keyword and finds. */
  predicate PlainName(vars: Table, n: string) {
    n != "" && !AllDigits(n) && n in vars &&
    forall k :: 0 <= k < |n| ==> !IsFieldSyntax(n[k]) && n[k] != '}'
  }

  predicate AllPlain(vars: Table, segs: seq<Segment>) {
    forall i :: 0 <= i < |segs| && segs[i].Ref? ==> PlainName(vars, segs[i].name)
  }

  /** What a template of segments should expand to. */
  function Expand(env: Env, vars: Table, segs: seq<Segment>): string
    requires AllPlain(vars, segs)
    decreases |segs|
  {
    if segs == [] then []
    else
      assert AllPlain(vars, segs[1..]) by {
        forall i | 0 <= i < |segs[1..]| && segs[1..][i].Ref?
          ensures PlainName(vars, segs[1..][i].name)
        {
          assert segs[1..][i] == segs[i + 1];
        }
      }
      (match segs[0] case Lit(s) => s case Ref(n) => ValueText(env, vars[n])) + Expand(env, vars, segs[1..])
  }

  lemma PrefixTwice(a: string, b: string, r: Rendering)
    ensures Prefix(a, Prefix(b, r)) == Prefix(a + b, r)
  {
    if r.Rendered? {
      assert a + (b + r.text) == (a + b) + r.text;
    }
  }

  lemma {:induction false} RenderEscaped(env: Env, vars: Table, s: string, rest: string)
    ensures Render(env, vars, Escape(s) + rest) == Prefix(s, Render(env, vars, rest))
    decreases |s|
  {
    if s == [] {
      assert Escape(s) + rest == rest;
      assert Prefix([], Render(env, vars, rest)) == Render(env, vars, rest);
    } else {
      var u := Escape(s[1..]) + rest;
      RenderEscaped(env, vars, s[1..], rest);
      PrefixTwice([s[0]], s[1..], Render(env, vars, rest));
      assert [s[0]] + s[1..] == s;
      if s[0] == '{' || s[0] == '}' {
        var t := [s[0], s[0]] + u;
        assert Escape(s) + rest == t;
        assert t[2..] == u;
        assert Render(env, vars, t) == Prefix([s[0]], Render(env, vars, u));
      } else {
        var t := [s[0]] + u;
        assert Escape(s) + rest == t;
        assert t[1..] == u;
        assert Render(env, vars, t) == Prefix([s[0]], Render(env, vars, u));
      }
    }
  }

  lemma RenderField(env: Env, vars: Table, n: string, rest: string)
    requires PlainName(vars, n)
    ensures Render(env, vars, "{" + n + "}" + rest) == Prefix(ValueText(env, vars[n]), Render(env, vars, rest))
  {
    var t := "{" + n + "}" + rest;
    assert t[0] == '{';
    assert t[1] != '{' by {
      assert t[1] == n[0];
    }
    assert forall k :: 1 <= k < |n| + 1 ==> t[k] == n[k - 1];
    assert t[|n| + 1] == '}';
    assert CloseBrace(t, 1) == Some(|n| + 1);
    assert t[1..|n| + 1] == n;
    assert t[|n| + 2..] == rest;
  }

  /** A template of literal text and plain names present in the table renders
      to the literal text with each field replaced by its value. */
  lemma {:induction false} RenderPlain(env: Env, vars: Table, segs: seq<Segment>)
    requires AllPlain(vars, segs)
    ensures Render(env, vars, Unparse(segs)) == Rendered(Expand(env, vars, segs))
    decreases |segs|
  {
    if segs == [] {
    } else {
      assert AllPlain(vars, segs[1..]) by {
        forall i | 0 <= i < |segs[1..]| && segs[1..][i].Ref?
          ensures PlainName(vars, segs[1..][i].name)
        {
          assert segs[1..][i] == segs[i + 1];
        }
      }
      RenderPlain(env, vars, segs[1..]);
      match segs[0]
      case Lit(s) =>
        RenderEscaped(env, vars, s, Unparse(segs[1..]));
      case Ref(n) =>
        assert PlainName(vars, segs[0].name);
        RenderField(env, vars, n, Unparse(segs[1..]));
    }
  }

  /** Text in front of a field is kept; what follows the closing brace is
      rendered after it. */
  lemma FieldSplit(env: Env, vars: Table, n: string, rest: string)
    requires n != [] && n[0] != '{' && forall k :: 0 <= k < |n| ==> n[k] != '}'
    ensures Render(env, vars, "{" + n + "}" + rest) == Then(ReplaceField(env, vars, n), Render(env, vars, rest))
  {
    var t := "{" + n + "}" + rest;
    assert t[1] == n[0];
    assert forall k :: 1 <= k < |n| + 1 ==> t[k] == n[k - 1];
    assert t[|n| + 1] == '}';
    assert CloseBrace(t, 1) == Some(|n| + 1);
    assert t[1..|n| + 1] == n;
    assert t[|n| + 2..] == rest;
  }

  /** A keyword the table lacks raises `KeyError`. */
  lemma UnknownNameFails(env: Env, vars: Table, n: string, rest: string)
    requires n != "" && !AllDigits(n) && n !in vars
    requires forall k :: 0 <= k < |n| ==> !IsFieldSyntax(n[k]) && n[k] != '}'
    ensures Render(env, vars, "{" + n + "}" + rest) == FormatError
  {
    FieldSplit(env, vars, n, rest);
  }

  /** An empty or all-digit field asks for a positional argument, and there is
      none: `IndexError`. */
  lemma PositionalFieldFails(env: Env, vars: Table, n: string, rest: string)
    requires AllDigits(n)
    ensures Render(env, vars, "{" + n + "}" + rest) == FormatError
  {
    if n == [] {
      var t := "{" + n + "}" + rest;
      assert t[1] == '}' && CloseBrace(t, 1) == Some(1) && t[1..1] == "";
    } else {
      assert !IsFieldSyntax(n[0]);
      FieldSplit(env, vars, n, rest);
    }
  }

  /** A `}` that is not doubled raises `ValueError`. */
  lemma SingleCloseBraceFails(env: Env, vars: Table, rest: string)
    requires rest == [] || rest[0] != '}'
    ensures Render(env, vars, "}" + rest) == FormatError
  {
  }

  /** A `{` with no `}` after it raises `ValueError`. */
  lemma UnterminatedFieldFails(env: Env, vars: Table, rest: string)
    requires rest == [] || rest[0] != '{'
    requires forall k :: 0 <= k < |rest| ==> rest[k] != '}'
    ensures Render(env, vars, "{" + rest) == FormatError
  {
    var t := "{" + rest;
    assert forall k :: 1 <= k < |t| ==> t[k] == rest[k - 1];
    assert CloseBrace(t, 1) == None;
  }

  /** A field name built of `\w` characters that is not a number. */
  predicate WordName(n: string) {
    n != "" && !AllDigits(n) && forall k :: 0 <= k < |n| ==> IsWordChar(n[k])
  }

  lemma {:induction false} WordRunOver(s: string, i: nat, n: nat)
    requires i + n <= |s|
    requires forall k :: i <= k < i + n ==> IsWordChar(s[k])
    requires i + n < |s| ==> !IsWordChar(s[i + n])
    ensures WordRun(s, i) == n
    decreases n
  {
    if n > 0 {
      WordRunOver(s, i + 1, n - 1);
    }
  }

  lemma {:induction false} PlaceholderNamesSuffix(a: string, b: string)
    ensures PlaceholderNames(b) <= PlaceholderNames(a + b)
    decreases |a|
  {
    if a == [] {
      assert a + b == b;
    } else {
      assert (a + b)[1..] == a[1..] + b;
      PlaceholderNamesSuffix(a[1..], b);
    }
  }

  /** `re.findall(r"{(\w+)}", ...)` finds every word-named field of a
      template. */
  lemma {:induction false} RefNamesArePlaceholders(segs: seq<Segment>)
    ensures forall i :: 0 <= i < |segs| && segs[i].Ref? && WordName(segs[i].name) ==>
      segs[i].name in PlaceholderNames(Unparse(segs))
    decreases |segs|
  {
    if segs != [] {
      RefNamesArePlaceholders(segs[1..]);
      var head := match segs[0] case Lit(s) => Escape(s) case Ref(n) => "{" + n + "}";
      var rest := Unparse(segs[1..]);
      PlaceholderNamesSuffix(head, rest);
      forall i | 1 <= i < |segs| && segs[i].Ref? && WordName(segs[i].name)
        ensures segs[i].name in PlaceholderNames(Unparse(segs))
      {
        assert segs[1..][i - 1] == segs[i];
      }
      if segs[0].Ref? && WordName(segs[0].name) {
        var n := segs[0].name;
        var t := Unparse(segs);
        assert t == "{" + n + "}" + rest;
        assert forall k :: 1 <= k < |n| + 1 ==> t[k] == n[k - 1];
        assert t[|n| + 1] == '}';
        WordRunOver(t, 1, |n|);
        assert PlaceholderAt(t, 0);
        assert NameAt(t, 0) == t[1..|n| + 1] == n;
      }
    }
  }

  /** After the missing-variable fill, a template of literal text and
      word-named fields always renders, to its text with each field replaced
      by its value (`""` for the names that were missing). */
  lemma FilledTemplateRenders(env: Env, vars: Table, segs: seq<Segment>)
    requires forall i :: 0 <= i < |segs| && segs[i].Ref? ==> WordName(segs[i].name)
    ensures var filled := Filled(vars, PlaceholderNames(Unparse(segs)));
      AllPlain(filled, segs) && Render(env, filled, Unparse(segs)) == Rendered(Expand(env, filled, segs))
  {
    var filled := Filled(vars, PlaceholderNames(Unparse(segs)));
    RefNamesArePlaceholders(segs);
    forall i | 0 <= i < |segs| && segs[i].Ref?
      ensures PlainName(filled, segs[i].name)
    {
      var n := segs[i].name;
      forall k | 0 <= k < |n|
        ensures !IsFieldSyntax(n[k]) && n[k] != '}'
      {
        assert IsWordChar(n[k]);
      }
    }
    RenderPlain(env, filled, segs);
  }

  lemma PlainWordName(vars: Table, n: string)
    requires WordName(n) && n in vars
    ensures PlainName(vars, n)
  {
    forall k | 0 <= k < |n|
      ensures !IsFieldSyntax(n[k]) && n[k] != '}'
    {
      assert IsWordChar(n[k]);
    }
  }

  function ExampleVars(): Table {
    map["user" := Text("Alice"), "title" := Text("Sunset")]
  }

  /** A literal separator and a field: `/{title}` with the title present. */
  lemma RenderExample(env: Env)
    ensures Render(env, ExampleVars(), "/{title}") == Rendered("/Sunset")
  {
    assert !IsDigit("title"[0]);
    PlainWordName(ExampleVars(), "title");
    RenderField(env, ExampleVars(), "title", "");
    assert "/{title}"[1..] == "{" + "title" + "}" + "";
  }
}
