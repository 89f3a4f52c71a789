/** `extractId`: the configured filename rule is rewritten into a regular
    expression, which is matched at the start of the file's stem.  The
    matcher covers the fragment of Python's `re` that such rewritten rules
    fall into: literal characters, `.`, the lazy wildcard `.*?` and the two
    digit groups the rewriting inserts. */
module IdExtractor {
  import opened Wrappers
  import opened Text

  /** What `{id}` is replaced by: a named digit run and an optional `_p<n>`. */
  const IdGroupText: string := "(?P<id>\\d+)(?:_p\\d+)?"
  /** What `{id_num}` is replaced by: a digit run in a group named `id_num`. */
  const IdNumGroupText: string := "(?P<id_num>\\d+)"
  /** What every other `{...}` becomes. */
  const LazyText: string := ".*?"

  // ---------------------------------------------------------------------
  // Pattern construction (string rewriting)
  // ---------------------------------------------------------------------

  /** Index of the first `}` or newline at or after `i` (or `|p|`). */
  function FieldEnd(p: string, i: nat): (j: nat)
    requires i <= |p|
    ensures i <= j <= |p|
    ensures forall k :: i <= k < j ==> p[k] != '}' && p[k] != '\n'
    ensures j < |p| ==> p[j] == '}' || p[j] == '\n'
    decreases |p| - i
  {
    if i == |p| || p[i] == '}' || p[i] == '\n' then i else FieldEnd(p, i + 1)
  }

  /** Python `re.sub(r"{.*?}", ".*?", p)`: scanning from the left, each `{`
      that has a `}` later on the same line is replaced, together with
      everything up to the first such `}`, by `.*?`; any other character is
      kept. */
  function SubLazy(p: string): string
    decreases |p|
  {
    if p == [] then []
    else if p[0] == '{' && FieldEnd(p, 1) < |p| && p[FieldEnd(p, 1)] == '}' then
      LazyText + SubLazy(p[FieldEnd(p, 1) + 1..])
    else [p[0]] + SubLazy(p[1..])
  }

  /** A text without `{` is left as it is. */
  lemma {:induction false} SubLazyKeepsBraceFree(p: string)
    requires forall k :: 0 <= k < |p| ==> p[k] != '{'
    ensures SubLazy(p) == p
    decreases |p|
  {
    if p != [] {
      SubLazyKeepsBraceFree(p[1..]);
    }
  }

  /** A `{name}` whose name holds no `}` and no newline becomes `.*?`, and
      rewriting carries on right after its `}`. */
  lemma SubLazyField(name: string, rest: string)
    requires forall k :: 0 <= k < |name| ==> name[k] != '}' && name[k] != '\n'
    ensures SubLazy("{" + name + "}" + rest) == LazyText + SubLazy(rest)
  {
    var p := "{" + name + "}" + rest;
    FieldAt(p, name, 1);
    assert p[|name| + 2..] == rest;
  }

  lemma {:induction false} FieldAt(p: string, name: string, i: nat)
    requires 1 <= i <= |name| + 1 && |name| + 2 <= |p|
    requires p[1..|name| + 1] == name && p[|name| + 1] == '}'
    requires forall k :: 0 <= k < |name| ==> name[k] != '}' && name[k] != '\n'
    ensures FieldEnd(p, i) == |name| + 1
    decreases |name| + 1 - i
  {
    if i < |name| + 1 {
      assert p[i] == name[i - 1];
      FieldAt(p, name, i + 1);
    }
  }

  /** The regular expression `extractId` builds, or `None` when the rule
      names neither `{id_num}` nor `{id}`.  The two `rule.replace` calls that
      precede it have their results discarded, so they do not appear. */
  function BuildPattern(rule: string): Option<string> {
    if Contains(rule, "{id_num}") then Some(SubLazy(ReplaceAll(rule, "{id_num}", IdNumGroupText)))
    else if Contains(rule, "{id}") then Some(SubLazy(ReplaceAll(rule, "{id}", IdGroupText)))
    else None
  }

  // ---------------------------------------------------------------------
  // The regular-expression fragment and its backtracking matcher
  // ---------------------------------------------------------------------

  /** `Digits(name, page)` is `(?P<name>\d+)`, followed by `(?:_p\d+)?` when
      `page` holds. */
  datatype Tok = Char(c: char) | AnyChar | Lazy | Digits(name: string, page: bool)

  /** Characters with a meaning of their own in a Python pattern. */
  const Special: set<char> := {'.', '^', '$', '*', '+', '?', '{', '}', '[', ']', '(', ')', '\\', '|'}

  /** Reads a pattern in the fragment; `None` for any other pattern. */
  function Compile(p: string): Option<seq<Tok>>
    decreases |p|
  {
    if p == [] then Some([])
    else if StartsWith(p, IdGroupText) then
      var rest :- Compile(p[|IdGroupText|..]);
      Some([Digits("id", true)] + rest)
    else if StartsWith(p, IdNumGroupText) then
      var rest :- Compile(p[|IdNumGroupText|..]);
      Some([Digits("id_num", false)] + rest)
    else if StartsWith(p, LazyText) then
      var rest :- Compile(p[|LazyText|..]);
      Some([Lazy] + rest)
    else if p[0] == '.' then
      var rest :- Compile(p[1..]);
      Some([AnyChar] + rest)
    else if p[0] in Special then None
    else
      var rest :- Compile(p[1..]);
      Some([Char(p[0])] + rest)
  }

  /** The text a group captured. */
  datatype Span = Span(name: string, start: nat, end: nat)

  /** `re.match` of `toks` against `s` from position `i`, with Python's
      backtracking order (greedy digit runs, greedy optional page suffix,
      lazy wildcard); the captures of the first match found, one per group. */
  function Match(toks: seq<Tok>, s: string, i: nat): Option<seq<Span>>
    requires i <= |s|
    decreases |toks|, 0, 0
  {
    if toks == [] then Some([])
    else match toks[0]
      case Char(c) => if i < |s| && s[i] == c then Match(toks[1..], s, i + 1) else None
      case AnyChar => if i < |s| && s[i] != '\n' then Match(toks[1..], s, i + 1) else None
      case Lazy => LazyFrom(toks[1..], s, i)
      case Digits(name, page) =>
        var n := DigitRun(s, i);
        if n == 0 then None else DigitsTo(toks[1..], name, page, s, i, i + n)
  }

  /** `.*?` has consumed `s[..k]`: try the rest here, then one more character
      (never a newline). */
  function LazyFrom(rest: seq<Tok>, s: string, k: nat): Option<seq<Span>>
    requires k <= |s|
    decreases |rest|, 3, |s| - k
  {
    var r := Match(rest, s, k);
    if r.Some? then r
    else if k < |s| && s[k] != '\n' then LazyFrom(rest, s, k + 1)
    else None
  }

  /** The digit group spans `s[start..j]`: try the rest after it, then give
      back one digit. */
  function DigitsTo(rest: seq<Tok>, name: string, page: bool, s: string, start: nat, j: nat): Option<seq<Span>>
    requires start < j <= |s|
    decreases |rest|, 2, j
  {
    var r := if page then PageSuffix(rest, s, j) else Match(rest, s, j);
    if r.Some? then Some([Span(name, start, j)] + r.value)
    else if start + 1 < j then DigitsTo(rest, name, page, s, start, j - 1)
    else None
  }

  /** `(?:_p\d+)?` at `j`: first with the suffix, then without it. */
  function PageSuffix(rest: seq<Tok>, s: string, j: nat): Option<seq<Span>>
    requires j <= |s|
    decreases |rest|, 1, 0
  {
    var n := if StartsWith(s[j..], "_p") then DigitRun(s, j + 2) else 0;
    var r := if n > 0 then PageDigitsTo(rest, s, j + 2, j + 2 + n) else None;
    if r.Some? then r else Match(rest, s, j)
  }

  /** The suffix's digits span `s[start..m]`: try the rest, then give back one. */
  function PageDigitsTo(rest: seq<Tok>, s: string, start: nat, m: nat): Option<seq<Span>>
    requires start < m <= |s|
    decreases |rest|, 0, m
  {
    var r := Match(rest, s, m);
    if r.Some? then r
    else if start + 1 < m then PageDigitsTo(rest, s, start, m - 1)
    else None
  }

  /** Names of the groups of a pattern, in order. */
  function GroupNames(toks: seq<Tok>): seq<string>
    decreases |toks|
  {
    if toks == [] then []
    else (if toks[0].Digits? then [toks[0].name] else []) + GroupNames(toks[1..])
  }

  function SpanNames(caps: seq<Span>): seq<string>
    decreases |caps|
  {
    if caps == [] then [] else [caps[0].name] + SpanNames(caps[1..])
  }

  /** A capture lies inside `s`, after `i`, and holds at least one digit. */
  predicate SpanInside(s: string, i: nat, sp: Span) {
    i <= sp.start < sp.end <= |s| && AllDigits(s[sp.start..sp.end])
  }

  predicate CapturesInside(s: string, i: nat, caps: seq<Span>) {
    forall k :: 0 <= k < |caps| ==> SpanInside(s, i, caps[k])
  }

  lemma CapturesMonotone(s: string, i: nat, j: nat, caps: seq<Span>)
    requires i <= j && CapturesInside(s, j, caps)
    ensures CapturesInside(s, i, caps)
  {
  }

  /** Every match captures each group of the pattern exactly once, in order,
      on a non-empty digit run of `s` after the starting position. */
  lemma {:induction false} MatchCaptures(toks: seq<Tok>, s: string, i: nat)
    requires i <= |s| && Match(toks, s, i).Some?
    ensures CapturesInside(s, i, Match(toks, s, i).value)
    ensures SpanNames(Match(toks, s, i).value) == GroupNames(toks)
    decreases |toks|, 0, 0
  {
    if toks != [] {
      assert GroupNames(toks) == (if toks[0].Digits? then [toks[0].name] else []) + GroupNames(toks[1..]);
      match toks[0]
      case Char(c) =>
        MatchCaptures(toks[1..], s, i + 1);
      case AnyChar =>
        MatchCaptures(toks[1..], s, i + 1);
      case Lazy =>
        LazyCaptures(toks[1..], s, i);
      case Digits(name, page) =>
        var n := DigitRun(s, i);
        DigitsCaptures(toks[1..], name, page, s, i, i + n);
    }
  }

  lemma {:induction false} LazyCaptures(rest: seq<Tok>, s: string, k: nat)
    requires k <= |s| && LazyFrom(rest, s, k).Some?
    ensures CapturesInside(s, k, LazyFrom(rest, s, k).value)
    ensures SpanNames(LazyFrom(rest, s, k).value) == GroupNames(rest)
    decreases |rest|, 3, |s| - k
  {
    if Match(rest, s, k).Some? {
      MatchCaptures(rest, s, k);
    } else {
      LazyCaptures(rest, s, k + 1);
    }
  }

  lemma {:induction false} DigitsCaptures(rest: seq<Tok>, name: string, page: bool, s: string, start: nat, j: nat)
    requires start < j <= |s| && AllDigits(s[start..j])
    requires DigitsTo(rest, name, page, s, start, j).Some?
    ensures CapturesInside(s, start, DigitsTo(rest, name, page, s, start, j).value)
    ensures SpanNames(DigitsTo(rest, name, page, s, start, j).value) == [name] + GroupNames(rest)
    decreases |rest|, 2, j
  {
    var r := if page then PageSuffix(rest, s, j) else Match(rest, s, j);
    if r.Some? {
      if page {
        PageCaptures(rest, s, j);
      } else {
        MatchCaptures(rest, s, j);
      }
      var caps := [Span(name, start, j)] + r.value;
      assert SpanNames(caps) == [name] + SpanNames(r.value) by {
        assert caps[1..] == r.value;
      }
      forall k | 0 <= k < |caps|
        ensures SpanInside(s, start, caps[k])
      {
        if k > 0 {
          assert caps[k] == r.value[k - 1];
        }
      }
    } else {
      assert s[start..j - 1] == s[start..j][..j - 1 - start];
      DigitsCaptures(rest, name, page, s, start, j - 1);
    }
  }

  lemma {:induction false} PageCaptures(rest: seq<Tok>, s: string, j: nat)
    requires j <= |s| && PageSuffix(rest, s, j).Some?
    ensures CapturesInside(s, j, PageSuffix(rest, s, j).value)
    ensures SpanNames(PageSuffix(rest, s, j).value) == GroupNames(rest)
    decreases |rest|, 1, 0
  {
    var n := if StartsWith(s[j..], "_p") then DigitRun(s, j + 2) else 0;
    var r := if n > 0 then PageDigitsTo(rest, s, j + 2, j + 2 + n) else None;
    if r.Some? {
      PageDigitsCaptures(rest, s, j + 2, j + 2 + n);
      CapturesMonotone(s, j, j + 2, r.value);
    } else {
      MatchCaptures(rest, s, j);
    }
  }

  lemma {:induction false} PageDigitsCaptures(rest: seq<Tok>, s: string, start: nat, m: nat)
    requires start < m <= |s| && PageDigitsTo(rest, s, start, m).Some?
    ensures CapturesInside(s, start, PageDigitsTo(rest, s, start, m).value)
    ensures SpanNames(PageDigitsTo(rest, s, start, m).value) == GroupNames(rest)
    decreases |rest|, 0, m
  {
    if Match(rest, s, m).Some? {
      MatchCaptures(rest, s, m);
      CapturesMonotone(s, start, m, Match(rest, s, m).value);
    } else {
      PageDigitsCaptures(rest, s, start, m - 1);
    }
  }

  // ---------------------------------------------------------------------
  // extractId
  // ---------------------------------------------------------------------

  /** `Found` is a returned ID; `NotFound` is `None` (no placeholder, an
      invalid pattern or no match; the custom-regex fallback is never taken
      because the organiser object has no `id_regex_pattern` attribute);
      `RaisesIndexError` is the uncaught error of reading a group named `id`
      that the pattern lacks; `OutsideFragment` is a pattern this model does
      not interpret. */
  datatype Extraction = Found(id: string) | NotFound | RaisesIndexError | OutsideFragment

  predicate Distinct(names: seq<string>) {
    forall a, b :: 0 <= a < b < |names| ==> names[a] != names[b]
  }

  /** The capture of the first group named `name`. */
  function Capture(caps: seq<Span>, name: string): (r: Option<Span>)
    ensures r.Some? ==> r.value in caps && r.value.name == name
    ensures r.None? <==> name !in SpanNames(caps)
    decreases |caps|
  {
    if caps == [] then None
    else if caps[0].name == name then Some(caps[0])
    else Capture(caps[1..], name)
  }

  /** The result of `extractId(stem)` for the rule `rule`.  A pattern that
      names one group twice is a `re.error`, which is caught. */
  function ExtractId(rule: string, stem: string): Extraction {
    match BuildPattern(rule)
    case None => NotFound
    case Some(p) =>
      match Compile(p)
      case None => OutsideFragment
      case Some(toks) =>
        if !Distinct(GroupNames(toks)) then NotFound
        else match Match(toks, stem, 0)
          case None => NotFound
          case Some(caps) =>
            MatchCaptures(toks, stem, 0);
            match Capture(caps, "id")
            case None => RaisesIndexError
            case Some(sp) => Found(stem[sp.start..sp.end])
  }

  /** An extracted ID is a non-empty run of decimal digits of the stem. */
  lemma FoundIsDigitsOfStem(rule: string, stem: string)
    requires ExtractId(rule, stem).Found?
    ensures var id := ExtractId(rule, stem).id;
      id != [] && AllDigits(id) && Contains(stem, id)
  {
    var p := BuildPattern(rule).value;
    var toks := Compile(p).value;
    var caps := Match(toks, stem, 0).value;
    MatchCaptures(toks, stem, 0);
    var sp := Capture(caps, "id").value;
    var k :| 0 <= k < |caps| && caps[k] == sp;
    assert SpanInside(stem, 0, caps[k]);
    assert OccursAt(stem, stem[sp.start..sp.end], sp.start);
  }

  /** A rule that names only `{id_num}` can never yield an ID: the group is
      named `id_num` but `id` is read. */
  lemma IdNumGroupIsNeverRead(toks: seq<Tok>, stem: string)
    requires forall k :: 0 <= k < |toks| ==> (toks[k].Digits? ==> toks[k].name == "id_num")
    requires Match(toks, stem, 0).Some?
    ensures Capture(Match(toks, stem, 0).value, "id").None?
  {
    MatchCaptures(toks, stem, 0);
    NamesOfGroups(toks);
  }

  lemma {:induction false} NamesOfGroups(toks: seq<Tok>)
    requires forall k :: 0 <= k < |toks| ==> (toks[k].Digits? ==> toks[k].name == "id_num")
    ensures "id" !in GroupNames(toks)
    decreases |toks|
  {
    if toks != [] {
      assert forall k :: 0 <= k < |toks[1..]| ==> toks[1..][k] == toks[k + 1];
      NamesOfGroups(toks[1..]);
    }
  }

  // ---------------------------------------------------------------------
  // The two one-placeholder rules
  // ---------------------------------------------------------------------

  lemma PlaceholderAlone(rule: string, group: string)
    requires rule == "{id}" || rule == "{id_num}"
    ensures Contains(rule, rule) && ReplaceAll(rule, rule, group) == group
  {
    assert OccursAt(rule, rule, 0);
    assert rule[..|rule|] == rule && rule[|rule|..] == [];
  }

  lemma UsesIdGroup()
    ensures BuildPattern("{id}") == Some(IdGroupText)
  {
    PlaceholderAlone("{id}", IdGroupText);
    var r := "{id}";
    forall k | 0 <= k <= |r| ensures !OccursAt(r, "{id_num}", k) {}
    SubLazyKeepsBraceFree(IdGroupText);
  }

  lemma UsesIdNumGroup()
    ensures BuildPattern("{id_num}") == Some(IdNumGroupText)
  {
    PlaceholderAlone("{id_num}", IdNumGroupText);
    SubLazyKeepsBraceFree(IdNumGroupText);
  }

  lemma CompilesIdGroup()
    ensures Compile(IdGroupText) == Some([Digits("id", true)])
  {
    assert StartsWith(IdGroupText, IdGroupText) by {
      assert IdGroupText[..|IdGroupText|] == IdGroupText;
    }
    var rest := IdGroupText[|IdGroupText|..];
    assert rest == [];
    assert Compile(rest) == Some([]);
    assert [Digits("id", true)] + [] == [Digits("id", true)];
  }

  lemma CompilesIdNumGroup()
    ensures Compile(IdNumGroupText) == Some([Digits("id_num", false)])
  {
    DiffersAt(IdNumGroupText, IdGroupText, 6);
    assert StartsWith(IdNumGroupText, IdNumGroupText) by {
      assert IdNumGroupText[..|IdNumGroupText|] == IdNumGroupText;
    }
    var rest := IdNumGroupText[|IdNumGroupText|..];
    assert rest == [];
    assert Compile(rest) == Some([]);
    assert [Digits("id_num", false)] + [] == [Digits("id_num", false)];
  }

  /** A lone digit group with nothing after it matches exactly when the stem
      starts with a digit, and then takes the whole leading digit run. */
  lemma LoneGroupMatch(name: string, page: bool, stem: string)
    ensures var n := DigitRun(stem, 0);
      Match([Digits(name, page)], stem, 0) ==
        if n == 0 then None else Some([Span(name, 0, n)])
  {
    var n := DigitRun(stem, 0);
    if n > 0 {
      var rest: seq<Tok> := [];
      assert [Digits(name, page)][1..] == rest;
      if page {
        var m := if StartsWith(stem[n..], "_p") then DigitRun(stem, n + 2) else 0;
        if m > 0 {
          assert Match(rest, stem, n + 2 + m).Some?;
          assert PageDigitsTo(rest, stem, n + 2, n + 2 + m).Some?;
        }
        assert PageSuffix(rest, stem, n) == Some([]);
      }
      assert [Span(name, 0, n)] + [] == [Span(name, 0, n)];
      assert DigitsTo(rest, name, page, stem, 0, n) == Some([Span(name, 0, n)]);
    }
  }

  /** With the default rule `{id}`, the ID is the stem's leading digit run
      (a `_p<n>` page suffix after it is allowed and ignored); a stem that
      does not start with a digit gives none. */
  lemma DefaultRuleTakesLeadingDigits(stem: string)
    ensures var n := DigitRun(stem, 0);
      ExtractId("{id}", stem) == if n == 0 then NotFound else Found(stem[..n])
  {
    UsesIdGroup();
    CompilesIdGroup();
    LoneGroupMatch("id", true, stem);
    assert GroupNames([Digits("id", true)]) == ["id"] by {
      assert [Digits("id", true)][1..] == [];
    }
  }

  /** With the rule `{id_num}`, every stem that starts with a digit makes
      `extractId` raise, and every other stem gives no ID. */
  lemma IdNumRuleNeverExtracts(stem: string)
    ensures ExtractId("{id_num}", stem) ==
      if DigitRun(stem, 0) == 0 then NotFound else RaisesIndexError
  {
    UsesIdNumGroup();
    CompilesIdNumGroup();
    LoneGroupMatch("id_num", false, stem);
    assert GroupNames([Digits("id_num", false)]) == ["id_num"] by {
      assert [Digits("id_num", false)][1..] == [];
    }
  }
}
