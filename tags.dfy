/** Tag normaliser (main.py:747-764), the tag-summary joins built inside
    `buildPath` (main.py:691-701) and `get_translated_tags_only`
    (main.py:766-774). */
module Tags {
  import opened Wrappers
  import opened Text
  import opened Json

  /** A normalised tag entry: `{"tag": str(...), "translation": ...}`. The
      translation is kept exactly as the metadata had it. */
  datatype Tag = Tag(tag: string, translation: Json)

  /** One mapping-typed entry of the raw tag list, normalised. */
  function Normalize(env: Env, entry: seq<Field>): (t: Tag)
    ensures Lookup(entry, "tag") == None ==> t.tag == ""
    ensures forall s :: Lookup(entry, "tag") == Some(JStr(s)) ==> t.tag == s
    ensures forall i :: Lookup(entry, "tag") == Some(JInt(i)) ==> t.tag == IntToString(i)
    ensures Lookup(entry, "tag") == Some(JBool(true)) ==> t.tag == "True"
    ensures Lookup(entry, "tag") == Some(JBool(false)) ==> t.tag == "False"
    ensures Lookup(entry, "tag") == Some(JNull) ==> t.tag == "None"
    ensures Lookup(entry, "translation") == None ==> t.translation == JObj([])
    ensures Lookup(entry, "translation").Some? ==> t.translation == Lookup(entry, "translation").value
  {
    Tag(PyStr(env, Get(entry, "tag", JStr(""))), Get(entry, "translation", JObj([])))
  }

  /** The mapping-typed entries of `items`, normalised, in their original order;
      every other entry is dropped. Defined from the right so that it follows the
      loop that appends. */
  function NormalizeAll(env: Env, items: seq<Json>): seq<Tag>
    decreases |items|
  {
    if items == [] then []
    else
      var last := items[|items| - 1];
      NormalizeAll(env, items[..|items| - 1]) + (if last.JObj? then [Normalize(env, last.fields)] else [])
  }

  /** What `process_tags_data(tags_data)` returns. */
  function ProcessedTags(env: Env, tagsData: Json): seq<Tag> {
    if !tagsData.JObj? then []
    else
      var tagsList := Get(tagsData.fields, "tags", JList([]));
      if !tagsList.JList? then [] else NormalizeAll(env, tagsList.items)
  }

  /** `process_tags_data`: the loop that appends one normalised record per
      mapping-typed entry. */
  method ProcessTagsData(env: Env, tagsData: Json) returns (processed: seq<Tag>)
    ensures processed == ProcessedTags(env, tagsData)
  {
    if !tagsData.JObj? {
      return [];
    }
    var tagsList := Get(tagsData.fields, "tags", JList([]));
    if !tagsList.JList? {
      return [];
    }
    var items := tagsList.items;
    processed := [];
    for i := 0 to |items|
      invariant processed == NormalizeAll(env, items[..i])
    {
      assert items[..i + 1][..i] == items[..i];
      if items[i].JObj? {
        processed := processed + [Normalize(env, items[i].fields)];
      }
    }
    assert items[..|items|] == items;
  }

  /** Normalising distributes over concatenation: entries of the first part come
      first, in order, and nothing is merged or reordered. */
  lemma {:induction false} NormalizeAllConcat(env: Env, xs: seq<Json>, ys: seq<Json>)
    ensures NormalizeAll(env, xs + ys) == NormalizeAll(env, xs) + NormalizeAll(env, ys)
    decreases |ys|
  {
    if ys == [] {
      assert xs + ys == xs;
    } else {
      var ys' := ys[..|ys| - 1];
      assert (xs + ys)[..|xs + ys| - 1] == xs + ys';
      NormalizeAllConcat(env, xs, ys');
    }
  }

  /** A single entry survives exactly when it is a mapping. */
  lemma NormalizeAllSingle(env: Env, x: Json)
    ensures NormalizeAll(env, [x]) == if x.JObj? then [Normalize(env, x.fields)] else []
  {
    assert [x][..0] == [];
  }

  /** Every result comes from a mapping-typed entry, and every mapping-typed
      entry yields a result. */
  lemma {:induction false} NormalizeAllMembers(env: Env, items: seq<Json>, t: Tag)
    ensures t in NormalizeAll(env, items) <==>
      exists k :: 0 <= k < |items| && items[k].JObj? && t == Normalize(env, items[k].fields)
    decreases |items|
  {
    if items != [] {
      var init := items[..|items| - 1];
      NormalizeAllMembers(env, init, t);
      assert forall k :: 0 <= k < |init| ==> init[k] == items[k];
    }
  }

  /** `process_tags_data` gives `[]` for a non-mapping, or for a mapping whose
      `"tags"` entry is absent or not a list, and otherwise normalises that list. */
  lemma ProcessedTagsCases(env: Env, tagsData: Json)
    ensures !tagsData.JObj? ==> ProcessedTags(env, tagsData) == []
    ensures tagsData.JObj? && Lookup(tagsData.fields, "tags") == None ==> ProcessedTags(env, tagsData) == []
    ensures tagsData.JObj? && Lookup(tagsData.fields, "tags").Some? && !Lookup(tagsData.fields, "tags").value.JList?
      ==> ProcessedTags(env, tagsData) == []
    ensures forall items :: (tagsData.JObj? && Lookup(tagsData.fields, "tags") == Some(JList(items))
      ==> ProcessedTags(env, tagsData) == NormalizeAll(env, items))
  {
  }

  // ---------------------------------------------------------------------------
  // Tag-summary joins

  /** `tag.get("translation", {}).get("en", "")` on a normalised tag: the
      translation must be a mapping, or `.get` raises `AttributeError`. */
  function En(t: Tag): Result<Json, PyError> {
    if t.translation.JObj? then Ok(Get(t.translation.fields, "en", JStr(""))) else Err(AttributeError)
  }

  /** Applies `f` to every tag, left to right, stopping at the first error. */
  function Collect<T>(tags: seq<Tag>, f: Tag -> Result<T, PyError>): (r: Result<seq<T>, PyError>)
    ensures r.Ok? <==> forall k :: 0 <= k < |tags| ==> f(tags[k]).Ok?
    ensures r.Ok? ==> |r.value| == |tags| && forall k :: 0 <= k < |tags| ==> f(tags[k]) == Ok(r.value[k])
    ensures r.Err? ==> exists k :: 0 <= k < |tags| && f(tags[k]) == Err(r.error)
    decreases |tags|
  {
    if tags == [] then Ok([])
    else
      match f(tags[0])
      case Err(e) => Err(e)
      case Ok(x) =>
        var rest := Collect(tags[1..], f);
        assert forall k :: 1 <= k < |tags| ==> tags[k] == tags[1..][k - 1];
        match rest
        case Err(e) => Err(e)
        case Ok(xs) => Ok([x] + xs)
  }

  /** Python `sep.join(values)`: every value must be a `str`, or `TypeError`. */
  function JoinStrs(sep: string, values: seq<Json>): (r: Result<string, PyError>)
    ensures r.Err? <==> exists k :: 0 <= k < |values| && !values[k].JStr?
    ensures r.Err? ==> r.error == TypeError
    ensures r.Ok? ==> r.value == Join(sep, seq(|values|, k requires 0 <= k < |values| => values[k].s))
  {
    if forall k :: 0 <= k < |values| ==> values[k].JStr? then
      Ok(Join(sep, seq(|values|, k requires 0 <= k < |values| => values[k].s)))
    else Err(TypeError)
  }

  function Labels(tags: seq<Tag>): (r: seq<string>)
    ensures |r| == |tags| && forall k :: 0 <= k < |tags| ==> r[k] == tags[k].tag
  {
    seq(|tags|, k requires 0 <= k < |tags| => tags[k].tag)
  }

  /** `tags_str` (main.py:691). */
  function TagsStr(sep: string, tags: seq<Tag>): string {
    Join(sep, Labels(tags))
  }

  /** One element of `tags_transl` (main.py:693-695). */
  function TranslItem(env: Env, t: Tag): Result<string, PyError> {
    var en :- En(t);
    if Truthy(en) then Ok(t.tag + "(" + PyStr(env, en) + ")") else Ok(t.tag)
  }

  /** `tags_transl` (main.py:692-697). */
  function TagsTransl(env: Env, sep: string, tags: seq<Tag>): Result<string, PyError> {
    var items :- Collect(tags, t => TranslItem(env, t));
    Ok(Join(sep, items))
  }

  /** One element of `tags_transl_only` (main.py:699): `en or label`. */
  function TranslOnlyItem(t: Tag): Result<Json, PyError> {
    var en :- En(t);
    if Truthy(en) then Ok(en) else Ok(JStr(t.tag))
  }

  /** `tags_transl_only` (main.py:698-701). */
  function TagsTranslOnly(sep: string, tags: seq<Tag>): Result<string, PyError> {
    var items :- Collect(tags, TranslOnlyItem);
    JoinStrs(sep, items)
  }

  /** The truthy English translations, in order (the filtered generator at
      main.py:770-774). */
  function TruthyTranslations(tags: seq<Tag>): Result<seq<Json>, PyError>
    decreases |tags|
  {
    if tags == [] then Ok([])
    else
      var en :- En(tags[0]);
      var rest :- TruthyTranslations(tags[1..]);
      Ok(if Truthy(en) then [en] + rest else rest)
  }

  /** What `get_translated_tags_only(tags_data)` returns. */
  function TranslatedTagsOnly(env: Env, transSep: string, tagsData: Json): Result<string, PyError> {
    var ens :- TruthyTranslations(ProcessedTags(env, tagsData));
    JoinStrs(transSep, ens)
  }

  // ---------------------------------------------------------------------------
  // Reference meaning of the joins for well-typed tags

  /** A tag whose translation is a mapping holding, if anything, a string under `"en"`. */
  predicate WellTyped(t: Tag) {
    t.translation.JObj? && Get(t.translation.fields, "en", JStr("")).JStr?
  }

  /** The English translation of a well-typed tag (`""` when there is none). */
  function EnText(t: Tag): string
    requires WellTyped(t)
  {
    Get(t.translation.fields, "en", JStr("")).s
  }

  /** `label(en)` when the translation is non-empty, else `label`. */
  function WithTranslation(t: Tag): string
    requires WellTyped(t)
  {
    if EnText(t) != "" then t.tag + "(" + EnText(t) + ")" else t.tag
  }

  /** `en` when the translation is non-empty, else `label`. */
  function TranslationOrLabel(t: Tag): string
    requires WellTyped(t)
  {
    if EnText(t) != "" then EnText(t) else t.tag
  }

  /** The non-empty translations of well-typed tags, in order. */
  function NonEmptyTranslations(tags: seq<Tag>): seq<string>
    requires forall k :: 0 <= k < |tags| ==> WellTyped(tags[k])
    decreases |tags|
  {
    if tags == [] then []
    else (if EnText(tags[0]) != "" then [EnText(tags[0])] else []) + NonEmptyTranslations(tags[1..])
  }

  /** On well-typed tags `tags_transl` never fails and joins `label(en)` or `label`. */
  lemma TagsTranslMeaning(env: Env, sep: string, tags: seq<Tag>)
    requires forall k :: 0 <= k < |tags| ==> WellTyped(tags[k])
    ensures TagsTransl(env, sep, tags)
      == Ok(Join(sep, seq(|tags|, k requires 0 <= k < |tags| => WithTranslation(tags[k]))))
  {
    var f := t => TranslItem(env, t);
    forall k | 0 <= k < |tags| ensures f(tags[k]) == Ok(WithTranslation(tags[k])) {
      var en := Get(tags[k].translation.fields, "en", JStr(""));
      assert En(tags[k]) == Ok(en);
    }
    var r := Collect(tags, f);
    assert r.value == seq(|tags|, k requires 0 <= k < |tags| => WithTranslation(tags[k]));
  }

  /** On well-typed tags `tags_transl_only` never fails and joins `en` or `label`. */
  lemma TagsTranslOnlyMeaning(sep: string, tags: seq<Tag>)
    requires forall k :: 0 <= k < |tags| ==> WellTyped(tags[k])
    ensures TagsTranslOnly(sep, tags)
      == Ok(Join(sep, seq(|tags|, k requires 0 <= k < |tags| => TranslationOrLabel(tags[k]))))
  {
    forall k | 0 <= k < |tags| ensures TranslOnlyItem(tags[k]) == Ok(JStr(TranslationOrLabel(tags[k]))) {
      var en := Get(tags[k].translation.fields, "en", JStr(""));
      assert En(tags[k]) == Ok(en);
    }
    var r := Collect(tags, TranslOnlyItem);
    var strs := seq(|tags|, k requires 0 <= k < |tags| => TranslationOrLabel(tags[k]));
    assert seq(|r.value|, k requires 0 <= k < |r.value| => r.value[k].s) == strs;
  }

  /** On well-typed tags the translated-tags-only text joins exactly the
      non-empty translations. */
  lemma {:induction false} TruthyTranslationsMeaning(tags: seq<Tag>)
    requires forall k :: 0 <= k < |tags| ==> WellTyped(tags[k])
    ensures TruthyTranslations(tags).Ok?
    ensures var v := TruthyTranslations(tags).value;
      |v| == |NonEmptyTranslations(tags)| &&
      forall k :: 0 <= k < |v| ==> v[k] == JStr(NonEmptyTranslations(tags)[k])
    decreases |tags|
  {
    if tags != [] {
      assert forall k :: 0 <= k < |tags[1..]| ==> tags[1..][k] == tags[k + 1];
      TruthyTranslationsMeaning(tags[1..]);
      var en := Get(tags[0].translation.fields, "en", JStr(""));
      assert En(tags[0]) == Ok(en);
    }
  }

  lemma TranslatedTagsOnlyMeaning(env: Env, transSep: string, tagsData: Json)
    requires var tags := ProcessedTags(env, tagsData); forall k :: 0 <= k < |tags| ==> WellTyped(tags[k])
    ensures TranslatedTagsOnly(env, transSep, tagsData)
      == Ok(Join(transSep, NonEmptyTranslations(ProcessedTags(env, tagsData))))
  {
    var tags := ProcessedTags(env, tagsData);
    TruthyTranslationsMeaning(tags);
    var v := TruthyTranslations(tags).value;
    assert seq(|v|, k requires 0 <= k < |v| => v[k].s) == NonEmptyTranslations(tags);
  }

  /** A tag whose translation is not a mapping makes both translated joins raise
      `AttributeError`. */
  lemma NonMappingTranslationRaises(env: Env, sep: string, tags: seq<Tag>, i: nat)
    requires i < |tags| && !tags[i].translation.JObj?
    ensures TagsTransl(env, sep, tags).Err? && TagsTransl(env, sep, tags).error == AttributeError
    ensures TagsTranslOnly(sep, tags).Err? && TagsTranslOnly(sep, tags).error == AttributeError
  {
    var f := t => TranslItem(env, t);
    assert f(tags[i]).Err?;
    assert TranslOnlyItem(tags[i]).Err?;
    assert forall t :: f(t).Err? ==> f(t).error == AttributeError;
    assert forall t :: TranslOnlyItem(t).Err? ==> TranslOnlyItem(t).error == AttributeError;
  }
}
