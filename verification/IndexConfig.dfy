/** Index configuration: field options, field lists and validation (config.rs). */
module IndexConfig {
  import opened Base
  import opened OrderedFold
  import opened Dedup
  import TokenizerOptions

  type Entry = TokenizerOptions.Entry
  type Lowering = TokenizerOptions.Lowering

  datatype Config = Config(rowIdField: string, textFields: seq<string>, tokenizer: TokenizerOptions.TokenizerConfig) {
    /** `indexed_text_fields`: the configured fields, each once. */
    function IndexedTextFields(): (r: seq<string>) {
      Deduped(textFields)
    }
  }

  datatype Metadata = Metadata(config: Config, documentCount: u64, tantivyVersion: string)

  const DEFAULT_ROW_ID_FIELD := "row_id"
  const DEFAULT_TEXT_FIELDS := ["text"]

  /** `FullTextIndexConfig::validate`: the option it complains about, if any. */
  function Complaint(c: Config): (r: Option<string>) {
    if Trim(c.rowIdField) == "" then Some("row-id-field")
    else if c.textFields == [] then Some("text-fields")
    else if exists f :: f in c.textFields && (Trim(f) == "" || f == c.rowIdField) then Some("text-fields")
    else TokenizerOptions.Complaint(c.tokenizer)
  }

  predicate Valid(c: Config) {
    Complaint(c).None?
  }

  method Validate(c: Config) returns (complaint: Option<string>)
    ensures complaint == Complaint(c)
  {
    hide Trim, TokenizerOptions.Complaint, Deduped;
    if Trim(c.rowIdField) == "" {
      return Some("row-id-field");
    }
    var fields := DedupPreserveOrder(c.textFields);
    DedupedKeepsFirstOccurrences(c.textFields);
    assert c.textFields == [] || c.textFields[0] in fields;
    if fields == [] {
      return Some("text-fields");
    }
    assert fields[0] in c.textFields;
    for i := 0 to |fields|
      invariant forall k :: 0 <= k < i ==> Trim(fields[k]) != "" && fields[k] != c.rowIdField
    {
      assert fields[i] in c.textFields;
      if Trim(fields[i]) == "" || fields[i] == c.rowIdField {
        return Some("text-fields");
      }
    }
    forall f | f in c.textFields ensures Trim(f) != "" && f != c.rowIdField {
      assert f in fields;
    }
    complaint := TokenizerOptions.Complaint(c.tokenizer);
  }

  /** Field options normalise underscores too, unlike the tokenizer's. */
  function Key(lower: Lowering, rawKey: string): (r: string) {
    Replace(lower(Trim(TokenizerOptions.StripNamespace(rawKey))), '_', "-")
  }

  datatype FieldSetting = SetRowId(name: string) | SetTextField(name: string) | SetTextFields(names: seq<string>) | Nothing

  // The three local options the loop assigns
  datatype Fields = Fields(rowId: Option<string>, textField: Option<string>, textFields: Option<seq<string>>)

  const NO_FIELDS := Fields(None, None, None)

  function CleanName(value: string, key: string): (r: Result<string>) {
    if Trim(value) == "" then Err(InvalidOption(key)) else Ok(Trim(value))
  }

  function SplitTextFields(value: string): (r: Result<seq<string>>) {
    var names := Deduped(Filter((f: string) => f != "", MapSeq(Trim, Split(value, {',', ';'}))));
    if names == [] then Err(InvalidOption("text-fields")) else Ok(names)
  }

  function ParseEntry(lower: Lowering, e: Entry): (r: Result<FieldSetting>) {
    var key := Key(lower, e.0);
    if key == "row-id-field" then
      var name :- CleanName(e.1, key); Ok(SetRowId(name))
    else if key == "text-field" then
      var name :- CleanName(e.1, key); Ok(SetTextField(name))
    else if key == "text-fields" || key == "columns" then
      var names :- SplitTextFields(e.1); Ok(SetTextFields(names))
    else Ok(Nothing)
  }

  function Assign(f: Fields, s: FieldSetting): (r: Fields) {
    match s
    case SetRowId(n) => f.(rowId := Some(n))
    case SetTextField(n) => f.(textField := Some(n))
    case SetTextFields(ns) => f.(textFields := Some(ns))
    case Nothing => f
  }

  function ChosenTextFields(f: Fields): (r: seq<string>) {
    Deduped(
      if f.textFields.Some? then f.textFields.value
      else if f.textField.Some? then [f.textField.value]
      else DEFAULT_TEXT_FIELDS)
  }

  function Assemble(f: Fields, tokenizer: TokenizerOptions.TokenizerConfig): (r: Result<Config>) {
    var c := Config(if f.rowId.Some? then f.rowId.value else DEFAULT_ROW_ID_FIELD, ChosenTextFields(f), tokenizer);
    match Complaint(c) case None => Ok(c) case Some(key) => Err(InvalidOption(key))
  }

  /** The configuration an iteration order of the option map leads to. */
  function Outcome(lower: Lowering, entries: seq<Entry>): (r: Result<Config>) {
    var tokenizer :- TokenizerOptions.Outcome(lower, entries);
    var settings :- ParseAll(e => ParseEntry(lower, e), entries);
    Assemble(Fold(Assign, NO_FIELDS, settings), tokenizer)
  }

  /** `FullTextIndexConfig::from_options`, with `entries` the order in which the hash map is visited. */
  method FromOptions(lower: Lowering, entries: seq<Entry>) returns (r: Result<Config>)
    ensures r == Outcome(lower, entries)
  {
    hide ParseEntry, TokenizerOptions.Outcome, Complaint, Deduped;
    var tokenizer := TokenizerOptions.FromOptions(lower, entries);
    if tokenizer.Err? {
      return Err(tokenizer.error);
    }
    var rowId, textField, textFields: Option<seq<string>> := None, None, None;
    ghost var parse := e => ParseEntry(lower, e);
    for i := 0 to |entries|
      invariant ParseAll(parse, entries[..i]).Ok?
      invariant Fields(rowId, textField, textFields) == Fold(Assign, NO_FIELDS, ParseAll(parse, entries[..i]).value)
    {
      assert entries[..i + 1][..i] == entries[..i];
      var parsed := ParseEntry(lower, entries[i]);
      if parsed.Err? {
        FirstFailureWins(parse, entries, i + 1);
        return Err(parsed.error);
      }
      FoldAppend(Assign, NO_FIELDS, ParseAll(parse, entries[..i]).value, parsed.value);
      match parsed.value {
        case SetRowId(name) => rowId := Some(name);
        case SetTextField(name) => textField := Some(name);
        case SetTextFields(names) => textFields := Some(names);
        case Nothing =>
      }
    }
    assert entries[..|entries|] == entries;
    var fields := DedupPreserveOrder(
      if textFields.Some? then textFields.value
      else if textField.Some? then [textField.value]
      else DEFAULT_TEXT_FIELDS);
    if fields == [] {
      ChosenFieldsNeverEmpty(lower, entries);
      assert false;
    }
    var config := Config(if rowId.Some? then rowId.value else DEFAULT_ROW_ID_FIELD, fields, tokenizer.value);
    var complaint := Validate(config);
    if complaint.Some? {
      return Err(InvalidOption(complaint.value));
    }
    r := Ok(config);
  }

  /** The emptiness test after the fold never fires: an empty list already fails to parse. */
  lemma {:induction false} ChosenFieldsNeverEmpty(lower: Lowering, entries: seq<Entry>)
    requires ParseAll(e => ParseEntry(lower, e), entries).Ok?
    ensures ChosenTextFields(Fold(Assign, NO_FIELDS, ParseAll(e => ParseEntry(lower, e), entries).value)) != []
  {
    var settings := ParseAll(e => ParseEntry(lower, e), entries).value;
    forall i | 0 <= i < |settings| ensures !(settings[i].SetTextFields? && settings[i].names == []) {
      assert ParseEntry(lower, entries[i]) == Ok(settings[i]);
    }
    var f := Fold(Assign, NO_FIELDS, settings);
    FieldsNeverEmpty(NO_FIELDS, settings);
    var chosen := if f.textFields.Some? then f.textFields.value else if f.textField.Some? then [f.textField.value] else DEFAULT_TEXT_FIELDS;
    DedupedKeepsFirstOccurrences(chosen);
    assert chosen[0] in Deduped(chosen);
  }

  lemma {:induction false} FieldsNeverEmpty(start: Fields, settings: seq<FieldSetting>)
    requires start.textFields != Some([])
    requires forall i :: 0 <= i < |settings| ==> !(settings[i].SetTextFields? && settings[i].names == [])
    ensures Fold(Assign, start, settings).textFields != Some([])
    decreases |settings|
  {
    if settings != [] {
      FieldsNeverEmpty(Assign(start, settings[0]), settings[1..]);
    }
  }

  /** The fields a successful parse configures: never empty, no duplicates, none blank, none the row id field. */
  lemma {:induction false} ConfiguredFieldsAreClean(lower: Lowering, entries: seq<Entry>)
    requires Outcome(lower, entries).Ok?
    ensures var c := Outcome(lower, entries).value;
      && c.textFields != [] && Distinct(c.textFields) && c.IndexedTextFields() == c.textFields
      && forall f :: f in c.textFields ==> Trim(f) != "" && f != c.rowIdField
  {
    var f := Fold(Assign, NO_FIELDS, ParseAll(e => ParseEntry(lower, e), entries).value);
    var chosen := if f.textFields.Some? then f.textFields.value else if f.textField.Some? then [f.textField.value] else DEFAULT_TEXT_FIELDS;
    DedupedKeepsFirstOccurrences(chosen);
    DedupedIsIdempotent(chosen);
  }

  // ---- Independence of the visiting order ----

  predicate Parses(lower: Lowering, entries: seq<Entry>) {
    ParseAll(e => ParseEntry(lower, e), entries).Ok?
  }

  function Settings(lower: Lowering, entries: seq<Entry>): (settings: seq<FieldSetting>)
    requires Parses(lower, entries)
  {
    ParseAll(e => ParseEntry(lower, e), entries).value
  }

  function FoldedFields(lower: Lowering, entries: seq<Entry>): (fields: Fields)
    requires Parses(lower, entries)
  {
    Fold(Assign, NO_FIELDS, Settings(lower, entries))
  }

  /** Two settings write different values to the same local option. */
  predicate Disagree(a: FieldSetting, b: FieldSetting) {
    && a != b
    && ((a.SetRowId? && b.SetRowId?) || (a.SetTextField? && b.SetTextField?) || (a.SetTextFields? && b.SetTextFields?))
  }

  ghost predicate HasFieldList(settings: seq<FieldSetting>) {
    exists a :: a in settings && a.SetTextFields?
  }

  /** A disagreement that can show: any, except one about the single text field when a field list overrides it. */
  ghost predicate InDispute(settings: seq<FieldSetting>, a: FieldSetting, b: FieldSetting) {
    a in settings && b in settings && Disagree(a, b) && (a.SetTextField? ==> !HasFieldList(settings))
  }

  ghost predicate Undisputed(settings: seq<FieldSetting>) {
    forall a, b :: a in settings && b in settings ==> !InDispute(settings, a, b)
  }

  /** A local option holds a value some setting wrote, and nothing only if none did. */
  lemma {:induction false} FoldPicksASetting(settings: seq<FieldSetting>)
    ensures var f := Fold(Assign, NO_FIELDS, settings);
      && (f.rowId.Some? ==> SetRowId(f.rowId.value) in settings)
      && (f.textField.Some? ==> SetTextField(f.textField.value) in settings)
      && (f.textFields.Some? ==> SetTextFields(f.textFields.value) in settings)
      && (forall a :: a in settings ==>
            (a.SetRowId? ==> f.rowId.Some?) && (a.SetTextField? ==> f.textField.Some?) && (a.SetTextFields? ==> f.textFields.Some?))
    decreases |settings|
  {
    if settings != [] {
      var n := |settings| - 1;
      assert settings == settings[..n] + [settings[n]];
      FoldPicksASetting(settings[..n]);
      FoldAppend(Assign, NO_FIELDS, settings[..n], settings[n]);
    }
  }

  lemma {:induction false} SameFieldsChosen(xs: seq<FieldSetting>, ys: seq<FieldSetting>)
    requires multiset(xs) == multiset(ys) && Undisputed(xs)
    ensures var f, g := Fold(Assign, NO_FIELDS, xs), Fold(Assign, NO_FIELDS, ys);
      f.rowId == g.rowId && ChosenTextFields(f) == ChosenTextFields(g)
  {
    assert forall a :: a in xs <==> a in ys by {
      assert forall a :: a in xs <==> a in multiset(xs);
      assert forall a :: a in ys <==> a in multiset(ys);
    }
    FoldPicksASetting(xs);
    FoldPicksASetting(ys);
    var f, g := Fold(Assign, NO_FIELDS, xs), Fold(Assign, NO_FIELDS, ys);
    hide Deduped, Fold;
    if f.rowId.Some? {
      assert !InDispute(xs, SetRowId(f.rowId.value), SetRowId(g.rowId.value));
    }
    if f.textFields.Some? {
      assert !InDispute(xs, SetTextFields(f.textFields.value), SetTextFields(g.textFields.value));
    } else if f.textField.Some? {
      assert !InDispute(xs, SetTextField(f.textField.value), SetTextField(g.textField.value));
    }
  }

  /** Without competing tokenizer entries and disputed fields, success and configuration do not depend on the order. */
  lemma {:induction false} FromOptionsIgnoresOrder(lower: Lowering, xs: seq<Entry>, ys: seq<Entry>)
    requires multiset(xs) == multiset(ys)
    requires TokenizerOptions.NoEntriesCompete(lower, xs)
    requires Parses(lower, xs) ==> Undisputed(Settings(lower, xs))
    ensures Outcome(lower, xs).Ok? <==> Outcome(lower, ys).Ok?
    ensures Outcome(lower, xs).Ok? ==> Outcome(lower, xs) == Outcome(lower, ys)
  {
    hide ParseEntry, Assign, Complaint, Undisputed, ChosenTextFields, TokenizerOptions.Outcome;
    TokenizerOptions.FromOptionsIgnoresOrder(lower, xs, ys);
    var parse := e => ParseEntry(lower, e);
    if ParseAll(parse, xs).Ok? {
      ParseAllPermuted(parse, xs, ys);
      SameFieldsChosen(Settings(lower, xs), Settings(lower, ys));
    } else if ParseAll(parse, ys).Ok? {
      ParseAllPermuted(parse, ys, xs);
    }
  }

  /** What a configuration shows of the fold. */
  lemma {:induction false} OutcomeIsAssembled(lower: Lowering, entries: seq<Entry>)
    requires Outcome(lower, entries).Ok?
    ensures Parses(lower, entries)
    ensures var c, f := Outcome(lower, entries).value, FoldedFields(lower, entries);
      && c.textFields == ChosenTextFields(f)
      && (f.rowId.Some? ==> c.rowIdField == f.rowId.value)
      && TokenizerOptions.Outcome(lower, entries) == Ok(c.tokenizer)
  {
    hide ParseEntry, Assign, Complaint, ChosenTextFields, TokenizerOptions.Outcome;
  }

  lemma {:induction false} FoldedFieldsAppend(lower: Lowering, entries: seq<Entry>, last: Entry)
    requires Parses(lower, entries + [last])
    ensures Parses(lower, entries) && ParseEntry(lower, last).Ok?
    ensures FoldedFields(lower, entries + [last]) == Assign(FoldedFields(lower, entries), ParseEntry(lower, last).value)
  {
    hide ParseEntry, Assign;
    ParseAllAppend(e => ParseEntry(lower, e), entries, last);
    FoldAppend(Assign, NO_FIELDS, Settings(lower, entries), ParseEntry(lower, last).value);
  }

  lemma {:induction false} SettingsPermuted(lower: Lowering, xs: seq<Entry>, ys: seq<Entry>)
    requires multiset(xs) == multiset(ys) && Parses(lower, xs)
    ensures Parses(lower, ys)
    ensures HasFieldList(Settings(lower, xs)) <==> HasFieldList(Settings(lower, ys))
  {
    hide ParseEntry;
    ParseAllPermuted(e => ParseEntry(lower, e), xs, ys);
    var us, vs := Settings(lower, xs), Settings(lower, ys);
    assert forall a :: a in us <==> a in multiset(us);
    assert forall a :: a in vs <==> a in multiset(vs);
  }

  /** If the last entry's setting can show, the configuration shows it. */
  lemma {:induction false} LastSettingShows(lower: Lowering, entries: seq<Entry>, last: Entry)
    requires Outcome(lower, entries + [last]).Ok?
    ensures Parses(lower, entries + [last]) && ParseEntry(lower, last).Ok?
    ensures var c, a := Outcome(lower, entries + [last]).value, ParseEntry(lower, last).value;
      && (a.SetRowId? ==> c.rowIdField == a.name)
      && (a.SetTextFields? ==> c.textFields == a.names)
      && (a.SetTextField? && !HasFieldList(Settings(lower, entries + [last])) ==> c.textFields == [a.name])
  {
    OutcomeIsAssembled(lower, entries + [last]);
    FoldedFieldsAppend(lower, entries, last);
    FoldPicksASetting(Settings(lower, entries + [last]));
    var a := ParseEntry(lower, last).value;
    if a.SetTextFields? {
      ParsedListIsDeduped(lower, last);
    } else if a.SetTextField? {
      DedupedOfDistinct([a.name]);
    }
  }

  lemma {:induction false} ParsedListIsDeduped(lower: Lowering, e: Entry)
    requires ParseEntry(lower, e).Ok? && ParseEntry(lower, e).value.SetTextFields?
    ensures Deduped(ParseEntry(lower, e).value.names) == ParseEntry(lower, e).value.names
  {
    DedupedIsIdempotent(Filter((f: string) => f != "", MapSeq(Trim, Split(e.1, {',', ';'}))));
  }

  /** With two entries in dispute, whichever is visited last decides: two orders never agree on a configuration. */
  lemma {:induction false} DisputesDependOnOrder(lower: Lowering, entries: seq<Entry>, e: Entry, f: Entry)
    returns (one: seq<Entry>, other: seq<Entry>)
    requires Parses(lower, entries) && e in entries && f in entries
    requires ParseEntry(lower, e).Ok? && ParseEntry(lower, f).Ok?
    requires InDispute(Settings(lower, entries), ParseEntry(lower, e).value, ParseEntry(lower, f).value)
    ensures multiset(one) == multiset(entries) == multiset(other)
    ensures Outcome(lower, one).Ok? ==> Outcome(lower, one) != Outcome(lower, other)
  {
    hide ParseEntry, Outcome;
    var rest := LeaveTwoOut(entries, e, f);
    one, other := rest + [e] + [f], rest + [f] + [e];
    SettingsPermuted(lower, entries, one);
    SettingsPermuted(lower, entries, other);
    if Outcome(lower, one).Ok? && Outcome(lower, other).Ok? {
      LastSettingShows(lower, rest + [e], f);
      LastSettingShows(lower, rest + [f], e);
    }
  }

  ghost predicate OrderNeverMatters(lower: Lowering, entries: seq<Entry>) {
    forall other :: multiset(other) == multiset(entries) ==> Outcome(lower, other) == Outcome(lower, entries)
  }

  /** The whole of `from_options`: where one order succeeds, all orders give its configuration exactly when no tokenizer
      entries compete and no row ids, field lists or, without a list, single fields are in dispute. */
  lemma {:induction false} OrderNeverMattersIff(lower: Lowering, entries: seq<Entry>)
    requires Outcome(lower, entries).Ok?
    ensures Parses(lower, entries)
    ensures OrderNeverMatters(lower, entries) <==>
      TokenizerOptions.NoEntriesCompete(lower, entries) && Undisputed(Settings(lower, entries))
  {
    OutcomeIsAssembled(lower, entries);
    hide Outcome, ParseEntry, Undisputed, TokenizerOptions.NoEntriesCompete, TokenizerOptions.OrderNeverMatters;
    if TokenizerOptions.NoEntriesCompete(lower, entries) && Undisputed(Settings(lower, entries)) {
      forall other | multiset(other) == multiset(entries) ensures Outcome(lower, other) == Outcome(lower, entries) {
        FromOptionsIgnoresOrder(lower, entries, other);
      }
    } else if OrderNeverMatters(lower, entries) {
      TokenizersAgreeToo(lower, entries);
      TokenizerOptions.OrderNeverMattersIffNoEntriesCompete(lower, entries);
      DisputedEntriesShow(lower, entries);
    }
  }

  lemma {:induction false} TokenizersAgreeToo(lower: Lowering, entries: seq<Entry>)
    requires Outcome(lower, entries).Ok? && OrderNeverMatters(lower, entries)
    ensures TokenizerOptions.Outcome(lower, entries).Ok? && TokenizerOptions.OrderNeverMatters(lower, entries)
  {
    OutcomeIsAssembled(lower, entries);
    hide Outcome, TokenizerOptions.Outcome;
    forall other | multiset(other) == multiset(entries)
      ensures TokenizerOptions.Outcome(lower, other) == TokenizerOptions.Outcome(lower, entries)
    {
      assert Outcome(lower, other) == Outcome(lower, entries);
      OutcomeIsAssembled(lower, other);
    }
  }

  lemma {:induction false} DisputedEntriesShow(lower: Lowering, entries: seq<Entry>)
    requires Outcome(lower, entries).Ok? && Parses(lower, entries) && OrderNeverMatters(lower, entries)
    ensures Undisputed(Settings(lower, entries))
  {
    hide Outcome, ParseEntry, InDispute;
    var settings := Settings(lower, entries);
    forall a, b | a in settings && b in settings ensures !InDispute(settings, a, b) {
      if InDispute(settings, a, b) {
        var i :| 0 <= i < |settings| && settings[i] == a;
        var j :| 0 <= j < |settings| && settings[j] == b;
        assert ParseEntry(lower, entries[i]) == Ok(a) && ParseEntry(lower, entries[j]) == Ok(b);
        var one, other := DisputesDependOnOrder(lower, entries, entries[i], entries[j]);
        assert false;
      }
    }
  }

  /** Such entries exist: the plain and the namespaced spelling of the field list, each order valid, the orders different. */
  lemma {:induction false} SpellingsOfColumnsDispute()
    ensures var lower := (s: string) => s;
      var e, f := ("columns", "a"), ("fulltext.columns", "b");
      && Outcome(lower, [e, f]).Ok? && Outcome(lower, [e, f]).value.textFields == ["b"]
      && Outcome(lower, [f, e]).Ok? && Outcome(lower, [f, e]).value.textFields == ["a"]
  {
    hide Key, TokenizerOptions.Key, Outcome, ParseEntry, TokenizerOptions.ParseEntry;
    var lower := (s: string) => s;
    var e, f := ("columns", "a"), ("fulltext.columns", "b");
    ColumnsKeys(lower);
    ColumnsParse(lower, e);
    ColumnsParse(lower, f);
    OutcomeOfTwoLists(lower, e, f);
    OutcomeOfTwoLists(lower, f, e);
  }

  lemma {:induction false} ColumnsKeys(lower: Lowering)
    requires forall s :: lower(s) == s
    ensures TokenizerOptions.Key(lower, "columns") == TokenizerOptions.Key(lower, "fulltext.columns") == "columns"
    ensures Key(lower, "columns") == Key(lower, "fulltext.columns") == "columns"
  {
    var key := "columns";
    assert !("fulltext." <= key) && !("tantivy." <= key);
    assert "fulltext." <= "fulltext.columns" && "fulltext.columns"[9..] == key;
    assert Trim(key) == key;
    NothingToReplace(key);
    hide Trim, Replace;
  }

  lemma {:induction false} NothingToReplace(s: string)
    requires '_' !in s
    ensures Replace(s, '_', "-") == s
  {
    if s != "" {
      NothingToReplace(s[1..]);
    }
  }

  /** An entry that lists one field of one letter. */
  lemma {:induction false} ColumnsParse(lower: Lowering, e: Entry)
    requires TokenizerOptions.Key(lower, e.0) == Key(lower, e.0) == "columns"
    requires |e.1| == 1 && e.1[0] !in {',', ';'} && !IsWhitespace(e.1[0])
    ensures ParseEntry(lower, e) == Ok(SetTextFields([e.1]))
    ensures TokenizerOptions.ParseEntry(lower, e) == Ok(TokenizerOptions.Nothing)
  {
    OneLetterList(e.1);
    hide Key, TokenizerOptions.Key, SplitTextFields, IsWhitespace;
  }

  lemma {:induction false} OneLetterList(s: string)
    requires |s| == 1 && s[0] !in {',', ';'} && !IsWhitespace(s[0])
    ensures SplitTextFields(s) == Ok([s]) && Trim(s) == s
  {
    assert s[1..] == "";
    assert Split("", {',', ';'}) == [""];
    assert [s[0]] + "" == s;
    assert Split(s, {',', ';'}) == [s];
    assert Trim(s) == s;
    assert MapSeq(Trim, [s]) == [s];
    var named := (f: string) => f != "";
    assert Filter(named, [s]) == [s];
    DedupedOfDistinct([s]);
  }

  lemma {:induction false} OutcomeOfTwoLists(lower: Lowering, e: Entry, f: Entry)
    requires ParseEntry(lower, e) == Ok(SetTextFields([e.1])) && ParseEntry(lower, f) == Ok(SetTextFields([f.1]))
    requires TokenizerOptions.ParseEntry(lower, e) == TokenizerOptions.ParseEntry(lower, f) == Ok(TokenizerOptions.Nothing)
    requires Trim(f.1) != "" && f.1 != DEFAULT_ROW_ID_FIELD
    ensures Outcome(lower, [e, f]).Ok? && Outcome(lower, [e, f]).value.textFields == [f.1]
  {
    hide ParseEntry, TokenizerOptions.ParseEntry, TokenizerOptions.Outcome, Trim;
    TokenizerOptions.OutcomeOfTwo(lower, e, f);
    assert [] + [e] == [e] && [e] + [f] == [e, f];
    FoldedFieldsAppend(lower, [e], f);
    FoldedFieldsAppend(lower, [], e);
    DedupedOfDistinct([f.1]);
    DefaultsAreValid(f.1);
  }

  lemma {:induction false} DefaultsAreValid(field: string)
    requires Trim(field) != "" && field != DEFAULT_ROW_ID_FIELD
    ensures Valid(Config(DEFAULT_ROW_ID_FIELD, [field], TokenizerOptions.DEFAULT_CONFIG))
    ensures TokenizerOptions.Valid(TokenizerOptions.DEFAULT_CONFIG)
  {
    assert Trim("row_id") == "row_id";
  }
}
