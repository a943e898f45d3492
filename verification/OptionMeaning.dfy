/** What the options configure, read off the entries by their literal keys and values (tokenizer.rs, config.rs). */
module OptionMeaning {
  import opened Base
  import opened OrderedFold
  import opened TokenizerOptions
  import opened Dedup
  import IndexConfig

  // ---- Keys ----

  /** One leading namespace is dropped, as it is spelled. */
  lemma {:induction false} NamespaceIsStripped(key: string)
    ensures StripNamespace("fulltext." + key) == key && StripNamespace("tantivy." + key) == key
    ensures !("fulltext." <= key) && !("tantivy." <= key) ==> StripNamespace(key) == key
  {
    assert ("fulltext." + key)[9..] == key && ("tantivy." + key)[8..] == key;
    assert ("tantivy." + key)[0] != "fulltext."[0];
  }

  /** Keys are compared without namespace and outer blanks and in lower case. */
  lemma {:induction false} KeySpellings(lower: Lowering, key: string)
    ensures Key(lower, "fulltext." + key) == Key(lower, "tantivy." + key) == lower(Trim(key))
    ensures !("fulltext." <= key) && !("tantivy." <= key) ==> Key(lower, key) == lower(Trim(key))
  {
    NamespaceIsStripped(key);
    hide StripNamespace, Trim;
  }

  // The two folds normalise keys differently
  type Normaliser = string -> string

  function TokenizerKeys(lower: Lowering): (r: Normaliser) {
    key => Key(lower, key)
  }

  /** The value of the last entry visited under one of the keys. */
  function LastUnder(key: Normaliser, entries: seq<Entry>, keys: set<string>): (r: Option<string>) {
    if entries == [] then None
    else
      var n := |entries| - 1;
      if key(entries[n].0) in keys then Some(entries[n].1) else LastUnder(key, entries[..n], keys)
  }

  /** Entry `k` is under one of the keys, and no later one is. */
  ghost predicate IsLastUnder(key: Normaliser, entries: seq<Entry>, keys: set<string>, k: nat) {
    k < |entries| && key(entries[k].0) in keys && forall j :: k < j < |entries| ==> key(entries[j].0) !in keys
  }

  lemma {:induction false} LastUnderIs(key: Normaliser, entries: seq<Entry>, keys: set<string>)
    ensures LastUnder(key, entries, keys).None? ==> forall j :: 0 <= j < |entries| ==> key(entries[j].0) !in keys
    ensures LastUnder(key, entries, keys).Some? ==>
      exists k: nat :: IsLastUnder(key, entries, keys, k) && LastUnder(key, entries, keys).value == entries[k].1
  {
    if entries != [] {
      var n := |entries| - 1;
      if key(entries[n].0) in keys {
        assert IsLastUnder(key, entries, keys, n);
      } else {
        LastUnderIs(key, entries[..n], keys);
        assert forall j :: 0 <= j < n ==> entries[..n][j] == entries[j];
        if LastUnder(key, entries, keys).Some? {
          var k: nat :| IsLastUnder(key, entries[..n], keys, k) && LastUnder(key, entries[..n], keys).value == entries[..n][k].1;
          assert IsLastUnder(key, entries, keys, k);
        }
      }
    }
  }

  // ---- Values ----

  predicate AllDigits(s: string) {
    forall i :: 0 <= i < |s| ==> '0' <= s[i] <= '9'
  }

  function Decimal(digits: string): (n: nat)
    requires AllDigits(digits)
  {
    if digits == "" then 0
    else
      var k := |digits| - 1;
      10 * Decimal(digits[..k]) + (digits[k] as int - '0' as int)
  }

  /** `s` writes `n` in decimal digits, with or without a plus sign, and `n` fits 64 bits. */
  predicate Numeral(s: string, n: nat) {
    var digits := if s != "" && s[0] == '+' then s[1..] else s;
    digits != "" && AllDigits(digits) && n == Decimal(digits) && n <= 0xFFFF_FFFF_FFFF_FFFF
  }

  /** Digits read from the left behind what was read before. */
  function Continued(acc: nat, s: string): (n: nat)
    requires AllDigits(s)
    decreases |s|
  {
    if s == "" then acc else Continued(10 * acc + (s[0] as int - '0' as int), s[1..])
  }

  lemma {:induction false} ContinuedAppend(acc: nat, s: string, c: char)
    requires AllDigits(s) && '0' <= c <= '9'
    ensures Continued(acc, s + [c]) == 10 * Continued(acc, s) + (c as int - '0' as int)
    decreases |s|
  {
    if s == "" {
      assert (s + [c])[1..] == "";
    } else {
      assert (s + [c])[1..] == s[1..] + [c];
      ContinuedAppend(10 * acc + (s[0] as int - '0' as int), s[1..], c);
    }
  }

  lemma {:induction false} DecimalIsContinued(s: string)
    requires AllDigits(s)
    ensures Continued(0, s) == Decimal(s)
  {
    if s != "" {
      var k := |s| - 1;
      DecimalIsContinued(s[..k]);
      ContinuedAppend(0, s[..k], s[k]);
      assert s == s[..k] + [s[k]];
    }
  }

  lemma {:induction false} DigitsParse(s: string, acc: nat)
    requires acc <= USIZE_MAX
    ensures ParseDigits(s, acc).Some? ==> AllDigits(s)
    ensures AllDigits(s) ==> Continued(acc, s) >= acc
    ensures AllDigits(s) ==> ParseDigits(s, acc) == if Continued(acc, s) <= USIZE_MAX then Some(Continued(acc, s)) else None
    decreases |s|
  {
    if s != "" && '0' <= s[0] <= '9' {
      var n := 10 * acc + (s[0] as int - '0' as int);
      assert s == [s[0]] + s[1..];
      if n <= USIZE_MAX {
        DigitsParse(s[1..], n);
      } else if AllDigits(s) {
        ContinuedGrows(n, s[1..]);
      }
    }
  }

  lemma {:induction false} ContinuedGrows(acc: nat, s: string)
    requires AllDigits(s)
    ensures Continued(acc, s) >= acc
    decreases |s|
  {
    if s != "" {
      ContinuedGrows(10 * acc + (s[0] as int - '0' as int), s[1..]);
    }
  }

  /** `str::parse::<usize>` takes exactly the numerals and gives their number. */
  lemma {:induction false} NumeralsParse(s: string, n: nat)
    ensures ParseUsize(s) == Some(n) <==> Numeral(s, n)
  {
    var digits := if s != "" && s[0] == '+' then s[1..] else s;
    DigitsParse(digits, 0);
    if AllDigits(digits) {
      DecimalIsContinued(digits);
    }
  }

  function FlagName(flag: bool): (r: string) {
    if flag then "true" else "false"
  }

  function KindName(kind: TokenizerKind): (r: string) {
    match kind
    case Default => "default"
    case Simple => "simple"
    case Whitespace => "whitespace"
    case Raw => "raw"
    case Ngram => "ngram"
    case Jieba => "jieba"
    case Icu => "icu"
    case IcuSplit => "icu/split"
  }

  lemma {:induction false} FlagsParse(lower: Lowering, value: string, flag: bool)
    ensures ParseBool(lower, value) == Some(flag) <==> lower(Trim(value)) == FlagName(flag)
  {
    hide Trim;
  }

  lemma {:induction false} KindsParse(lower: Lowering, value: string, kind: TokenizerKind)
    ensures ParseTokenizer(lower, value) == Some(kind) <==> lower(Trim(value)) == KindName(kind)
  {
    hide Trim;
  }

  // ---- One field at a time ----

  datatype Shown =
    | ShownKind(kind: TokenizerKind)
    | ShownNumber(n: nat)
    | ShownFlag(flag: bool)
    | ShownText(text: string)
    | ShownWords(words: seq<string>)

  /** The field of a configuration an option is about. */
  function Held(c: TokenizerConfig, slot: Slot): (r: Shown) {
    match slot
    case TokenizerSlot => ShownKind(c.tokenizer)
    case MinGramSlot => ShownNumber(c.ngramMinGram)
    case MaxGramSlot => ShownNumber(c.ngramMaxGram)
    case PrefixOnlySlot => ShownFlag(c.ngramPrefixOnly)
    case SearchModeSlot => ShownFlag(c.jiebaSearchMode)
    case OrdinalPositionSlot => ShownFlag(c.jiebaOrdinalPosition)
    case LowerCaseSlot => ShownFlag(c.lowerCase)
    case MaxTokenLengthSlot => ShownNumber(c.maxTokenLength)
    case AsciiFoldingSlot => ShownFlag(c.asciiFolding)
    case StemSlot => ShownFlag(c.stem)
    case LanguageSlot => ShownText(c.language)
    case RemoveStopWordsSlot => ShownFlag(c.removeStopWords)
    case StopWordsSlot => ShownWords(c.stopWords)
    case WithPositionSlot => ShownFlag(c.withPosition)
  }

  /** An assignment writes the field of its option and leaves the others. */
  lemma {:induction false} AssignWritesOneField(c: TokenizerConfig, d: TokenizerConfig, s: Setting, slot: Slot)
    ensures SlotOf(s) == Some(slot) ==> Held(Assign(c, s), slot) == Held(Assign(d, s), slot)
    ensures SlotOf(s) != Some(slot) ==> Held(Assign(c, s), slot) == Held(c, slot)
  {
  }

  function KeysOf(slot: Slot): (keys: set<string>) {
    match slot
    case TokenizerSlot => {"tokenizer"}
    case MinGramSlot => {"ngram.min-gram"}
    case MaxGramSlot => {"ngram.max-gram"}
    case PrefixOnlySlot => {"ngram.prefix-only"}
    case SearchModeSlot => {"jieba.search-mode"}
    case OrdinalPositionSlot => {"jieba.ordinal-position", "jieba.ordinal-position-mode"}
    case LowerCaseSlot => {"lower-case"}
    case MaxTokenLengthSlot => {"max-token-length"}
    case AsciiFoldingSlot => {"ascii-folding"}
    case StemSlot => {"stem"}
    case LanguageSlot => {"language"}
    case RemoveStopWordsSlot => {"remove-stop-words"}
    case StopWordsSlot => {"stop-words"}
    case WithPositionSlot => {"with-position"}
  }

  lemma {:induction false} KeysNameSlots(key: string, slot: Slot)
    ensures SlotFor(key) == Some(slot) <==> key in KeysOf(slot)
  {
  }

  /** The field holds what the last entry of its option writes, and otherwise its default. */
  lemma {:induction false} FoldedHolds(lower: Lowering, entries: seq<Entry>, slot: Slot)
    requires Parses(lower, entries)
    ensures var last := LastUnder(TokenizerKeys(lower), entries, KeysOf(slot));
      && (last.None? ==> Held(Folded(lower, entries), slot) == Held(DEFAULT_CONFIG, slot))
      && (last.Some? ==>
            && ParseValue(lower, slot, last.value).Some?
            && Held(Folded(lower, entries), slot) == Held(Assign(DEFAULT_CONFIG, ParseValue(lower, slot, last.value).value), slot))
  {
    hide Held, Assign, SlotFor, KeysOf, ParseValue, ParseEntry, Folded, Key;
    if entries == [] {
      NothingFolded(lower);
    } else {
      var n := |entries| - 1;
      var init, last := entries[..n], entries[n];
      assert entries == init + [last];
      FoldedAppend(lower, init, last);
      FoldedHolds(lower, init, slot);
      KeysNameSlots(Key(lower, last.0), slot);
      AssignWritesOneField(Folded(lower, init), DEFAULT_CONFIG, ParseEntry(lower, last).value, slot);
      ParsedUnderSlot(lower, last);
    }
  }

  lemma {:induction false} NothingFolded(lower: Lowering)
    ensures Parses(lower, []) && Folded(lower, []) == DEFAULT_CONFIG
  {
  }

  lemma {:induction false} ParsedUnderSlot(lower: Lowering, e: Entry)
    requires ParseEntry(lower, e).Ok?
    ensures var slot := SlotFor(Key(lower, e.0));
      if slot.None? then ParseEntry(lower, e).value == Nothing
      else ParseValue(lower, slot.value, e.1) == Some(ParseEntry(lower, e).value) && SlotOf(ParseEntry(lower, e).value) == slot
    ensures SlotOf(ParseEntry(lower, e).value) == SlotFor(Key(lower, e.0))
  {
    hide SlotFor, Key;
  }

  /** The value under an option's key says that its field holds this. */
  predicate Says(lower: Lowering, slot: Slot, value: string, shown: Shown) {
    match slot
    case TokenizerSlot => shown.ShownKind? && lower(Trim(value)) == KindName(shown.kind)
    case MinGramSlot => shown.ShownNumber? && Numeral(Trim(value), shown.n)
    case MaxGramSlot => shown.ShownNumber? && Numeral(Trim(value), shown.n)
    case MaxTokenLengthSlot => shown.ShownNumber? && Numeral(Trim(value), shown.n)
    case LanguageSlot => shown == ShownText(lower(Trim(value)))
    case StopWordsSlot => shown == ShownWords(Filter((w: string) => w != "", MapSeq(Trim, Split(value, {';'}))))
    case _ => shown.ShownFlag? && lower(Trim(value)) == FlagName(shown.flag)
  }

  lemma {:induction false} ParsedValueSays(lower: Lowering, slot: Slot, value: string, c: TokenizerConfig)
    ensures ParseValue(lower, slot, value).Some? ==> Says(lower, slot, value, Held(Assign(c, ParseValue(lower, slot, value).value), slot))
    ensures (exists shown :: Says(lower, slot, value, shown)) ==> ParseValue(lower, slot, value).Some?
  {
    hide Trim, ParseUsize, ParseBool, ParseTokenizer, Numeral, FlagName, KindName, Split, Filter;
    forall n: nat ensures ParseUsize(Trim(value)) == Some(n) <==> Numeral(Trim(value), n) {
      NumeralsParse(Trim(value), n);
    }
    forall b ensures ParseBool(lower, value) == Some(b) <==> lower(Trim(value)) == FlagName(b) {
      FlagsParse(lower, value, b);
    }
    forall k ensures ParseTokenizer(lower, value) == Some(k) <==> lower(Trim(value)) == KindName(k) {
      KindsParse(lower, value, k);
    }
  }

  lemma {:induction false} OneThingIsSaid(lower: Lowering, slot: Slot, value: string, x: Shown, y: Shown)
    requires Says(lower, slot, value, x) && Says(lower, slot, value, y)
    ensures x == y
  {
    hide Trim, Split, Filter;
    assert FlagName(true) != FlagName(false);
    KindsDiffer(lower, value);
    hide KindName, FlagName;
  }

  lemma {:induction false} KindsDiffer(lower: Lowering, value: string)
    ensures forall k, l :: lower(Trim(value)) == KindName(k) && lower(Trim(value)) == KindName(l) ==> k == l
  {
    forall k, l | lower(Trim(value)) == KindName(k) && lower(Trim(value)) == KindName(l) ensures k == l {
      KindsParse(lower, value, k);
      KindsParse(lower, value, l);
    }
  }

  // ---- The whole configuration ----

  /** What the last entry under the keys says of a field, or its default where there is none. */
  predicate FlagIs(lower: Lowering, entries: seq<Entry>, keys: set<string>, flag: bool, byDefault: bool) {
    match LastUnder(TokenizerKeys(lower), entries, keys)
    case None => flag == byDefault
    case Some(value) => lower(Trim(value)) == FlagName(flag)
  }

  predicate NumberIs(lower: Lowering, entries: seq<Entry>, keys: set<string>, n: nat, byDefault: nat) {
    match LastUnder(TokenizerKeys(lower), entries, keys)
    case None => n == byDefault
    case Some(value) => Numeral(Trim(value), n)
  }

  predicate KindIs(lower: Lowering, entries: seq<Entry>, keys: set<string>, kind: TokenizerKind, byDefault: TokenizerKind) {
    match LastUnder(TokenizerKeys(lower), entries, keys)
    case None => kind == byDefault
    case Some(value) => lower(Trim(value)) == KindName(kind)
  }

  predicate LanguageIs(lower: Lowering, entries: seq<Entry>, keys: set<string>, language: string, byDefault: string) {
    match LastUnder(TokenizerKeys(lower), entries, keys)
    case None => language == byDefault
    case Some(value) => language == lower(Trim(value))
  }

  /** Stop words are separated by semicolons; blank ones are dropped. */
  predicate WordsAre(lower: Lowering, entries: seq<Entry>, keys: set<string>, words: seq<string>, byDefault: seq<string>) {
    match LastUnder(TokenizerKeys(lower), entries, keys)
    case None => words == byDefault
    case Some(value) => words == Filter((w: string) => w != "", MapSeq(Trim, Split(value, {';'})))
  }

  const FLAG_KEYS: set<string> :=
    {"ngram.prefix-only", "jieba.search-mode", "jieba.ordinal-position", "jieba.ordinal-position-mode", "lower-case",
     "ascii-folding", "stem", "remove-stop-words", "with-position"}

  /** The value of an entry is one that its option takes; other keys take anything. */
  ghost predicate Readable(lower: Lowering, e: Entry) {
    var key, value := Key(lower, e.0), Trim(e.1);
    && (key == "tokenizer" ==> exists kind :: lower(value) == KindName(kind))
    && (key in {"ngram.min-gram", "ngram.max-gram", "max-token-length"} ==> exists n: nat :: Numeral(value, n))
    && (key in FLAG_KEYS ==> lower(value) in {"true", "false"})
  }

  predicate FieldSays(lower: Lowering, entries: seq<Entry>, c: TokenizerConfig, slot: Slot) {
    match LastUnder(TokenizerKeys(lower), entries, KeysOf(slot))
    case None => Held(c, slot) == Held(DEFAULT_CONFIG, slot)
    case Some(value) => Says(lower, slot, value, Held(c, slot))
  }

  lemma {:induction false} FoldedSays(lower: Lowering, entries: seq<Entry>, slot: Slot)
    requires Parses(lower, entries)
    ensures FieldSays(lower, entries, Folded(lower, entries), slot)
  {
    hide Held, Assign, KeysOf, Says, ParseValue, Folded, Parses, LastUnder;
    FoldedHolds(lower, entries, slot);
    var last := LastUnder(TokenizerKeys(lower), entries, KeysOf(slot));
    if last.Some? {
      ParsedValueSays(lower, slot, last.value, DEFAULT_CONFIG);
    }
  }

  /** The entries determine the configuration. */
  lemma {:induction false} SayingsDetermine(lower: Lowering, entries: seq<Entry>, c: TokenizerConfig, d: TokenizerConfig)
    requires forall slot :: FieldSays(lower, entries, c, slot) && FieldSays(lower, entries, d, slot)
    ensures c == d
  {
    hide FieldSays, Held;
    forall slot ensures Held(c, slot) == Held(d, slot) {
      SameSaid(lower, entries, c, d, slot);
    }
    HeldDetermines(c, d);
  }

  lemma {:induction false} SameSaid(lower: Lowering, entries: seq<Entry>, c: TokenizerConfig, d: TokenizerConfig, slot: Slot)
    requires FieldSays(lower, entries, c, slot) && FieldSays(lower, entries, d, slot)
    ensures Held(c, slot) == Held(d, slot)
  {
    hide Held, Says, KeysOf, LastUnder;
    var last := LastUnder(TokenizerKeys(lower), entries, KeysOf(slot));
    if last.Some? {
      OneThingIsSaid(lower, slot, last.value, Held(c, slot), Held(d, slot));
    }
  }

  lemma {:induction false} HeldDetermines(c: TokenizerConfig, d: TokenizerConfig)
    requires forall slot :: Held(c, slot) == Held(d, slot)
    ensures c == d
  {
    assert Held(c, TokenizerSlot) == Held(d, TokenizerSlot) && Held(c, MinGramSlot) == Held(d, MinGramSlot);
    assert Held(c, MaxGramSlot) == Held(d, MaxGramSlot) && Held(c, PrefixOnlySlot) == Held(d, PrefixOnlySlot);
    assert Held(c, SearchModeSlot) == Held(d, SearchModeSlot) && Held(c, OrdinalPositionSlot) == Held(d, OrdinalPositionSlot);
    assert Held(c, LowerCaseSlot) == Held(d, LowerCaseSlot) && Held(c, MaxTokenLengthSlot) == Held(d, MaxTokenLengthSlot);
    assert Held(c, AsciiFoldingSlot) == Held(d, AsciiFoldingSlot) && Held(c, StemSlot) == Held(d, StemSlot);
    assert Held(c, LanguageSlot) == Held(d, LanguageSlot) && Held(c, RemoveStopWordsSlot) == Held(d, RemoveStopWordsSlot);
    assert Held(c, StopWordsSlot) == Held(d, StopWordsSlot) && Held(c, WithPositionSlot) == Held(d, WithPositionSlot);
  }

  lemma {:induction false} ReadableIff(lower: Lowering, e: Entry)
    ensures ParseEntry(lower, e).Ok? <==> Readable(lower, e)
  {
    hide Trim, ParseValue, Numeral, KindName, SlotFor, Key;
    var key := Key(lower, e.0);
    KeyGroups(key);
    if SlotFor(key).Some? {
      ReadableValues(lower, SlotFor(key).value, e.1);
    }
  }

  predicate TakesNumber(slot: Slot) {
    slot.MinGramSlot? || slot.MaxGramSlot? || slot.MaxTokenLengthSlot?
  }

  predicate TakesFlag(slot: Slot) {
    !TakesNumber(slot) && !slot.TokenizerSlot? && !slot.LanguageSlot? && !slot.StopWordsSlot?
  }

  lemma {:induction false} KeyGroups(key: string)
    ensures key == "tokenizer" <==> SlotFor(key) == Some(TokenizerSlot)
    ensures key in {"ngram.min-gram", "ngram.max-gram", "max-token-length"} <==> SlotFor(key).Some? && TakesNumber(SlotFor(key).value)
    ensures key in FLAG_KEYS <==> SlotFor(key).Some? && TakesFlag(SlotFor(key).value)
  {
  }

  lemma {:induction false} ReadableValues(lower: Lowering, slot: Slot, value: string)
    ensures slot.TokenizerSlot? ==> (ParseValue(lower, slot, value).Some? <==> exists kind :: lower(Trim(value)) == KindName(kind))
    ensures TakesNumber(slot) ==> (ParseValue(lower, slot, value).Some? <==> exists n: nat :: Numeral(Trim(value), n))
    ensures TakesFlag(slot) ==> (ParseValue(lower, slot, value).Some? <==> lower(Trim(value)) in {"true", "false"})
    ensures slot.LanguageSlot? || slot.StopWordsSlot? ==> ParseValue(lower, slot, value).Some?
  {
    hide Trim, ParseUsize, ParseTokenizer, Numeral, KindName, Split, Filter;
    forall n: nat ensures ParseUsize(Trim(value)) == Some(n) <==> Numeral(Trim(value), n) {
      NumeralsParse(Trim(value), n);
    }
    forall k ensures ParseTokenizer(lower, value) == Some(k) <==> lower(Trim(value)) == KindName(k) {
      KindsParse(lower, value, k);
    }
  }

  /** Every field is what the last entry under its keys says, or its default. */
  predicate Configured(lower: Lowering, entries: seq<Entry>, c: TokenizerConfig) {
    && KindIs(lower, entries, {"tokenizer"}, c.tokenizer, Default)
    && NumberIs(lower, entries, {"ngram.min-gram"}, c.ngramMinGram, 3)
    && NumberIs(lower, entries, {"ngram.max-gram"}, c.ngramMaxGram, 3)
    && FlagIs(lower, entries, {"ngram.prefix-only"}, c.ngramPrefixOnly, false)
    && FlagIs(lower, entries, {"jieba.search-mode"}, c.jiebaSearchMode, true)
    && FlagIs(lower, entries, {"jieba.ordinal-position", "jieba.ordinal-position-mode"}, c.jiebaOrdinalPosition, true)
    && FlagIs(lower, entries, {"lower-case"}, c.lowerCase, true)
    && NumberIs(lower, entries, {"max-token-length"}, c.maxTokenLength, 40)
    && FlagIs(lower, entries, {"ascii-folding"}, c.asciiFolding, true)
    && FlagIs(lower, entries, {"stem"}, c.stem, true)
    && LanguageIs(lower, entries, {"language"}, c.language, "english")
    && FlagIs(lower, entries, {"remove-stop-words"}, c.removeStopWords, true)
    && WordsAre(lower, entries, {"stop-words"}, c.stopWords, [])
    && FlagIs(lower, entries, {"with-position"}, c.withPosition, true)
  }

  /** Field by field, the sayings are these. */
  lemma {:induction false} SpelledOut(lower: Lowering, entries: seq<Entry>, c: TokenizerConfig)
    ensures (forall slot :: FieldSays(lower, entries, c, slot)) <==> Configured(lower, entries, c)
  {
    hide FieldSays, KindIs, NumberIs, FlagIs, LanguageIs, WordsAre, SlotIs;
    forall slot ensures FieldSays(lower, entries, c, slot) <==> SlotIs(lower, entries, c, slot) {
      SpelledSlot(lower, entries, c, slot);
    }
    if forall slot :: SlotIs(lower, entries, c, slot) {
      FirstSlotsSpelled(lower, entries, c);
      OtherSlotsSpelled(lower, entries, c);
    } else if Configured(lower, entries, c) {
      forall slot ensures SlotIs(lower, entries, c, slot) {
        EachSlotSpelled(lower, entries, c, slot);
      }
    }
  }

  lemma {:induction false} FirstSlotsSpelled(lower: Lowering, entries: seq<Entry>, c: TokenizerConfig)
    requires forall slot :: SlotIs(lower, entries, c, slot)
    ensures KindIs(lower, entries, {"tokenizer"}, c.tokenizer, Default)
    ensures NumberIs(lower, entries, {"ngram.min-gram"}, c.ngramMinGram, 3)
    ensures NumberIs(lower, entries, {"ngram.max-gram"}, c.ngramMaxGram, 3)
    ensures FlagIs(lower, entries, {"ngram.prefix-only"}, c.ngramPrefixOnly, false)
    ensures FlagIs(lower, entries, {"jieba.search-mode"}, c.jiebaSearchMode, true)
    ensures FlagIs(lower, entries, {"jieba.ordinal-position", "jieba.ordinal-position-mode"}, c.jiebaOrdinalPosition, true)
    ensures FlagIs(lower, entries, {"lower-case"}, c.lowerCase, true)
  {
    hide KindIs, NumberIs, FlagIs, LanguageIs, WordsAre;
    assert SlotIs(lower, entries, c, TokenizerSlot);
    assert SlotIs(lower, entries, c, MinGramSlot);
    assert SlotIs(lower, entries, c, MaxGramSlot);
    assert SlotIs(lower, entries, c, PrefixOnlySlot);
    assert SlotIs(lower, entries, c, SearchModeSlot);
    assert SlotIs(lower, entries, c, OrdinalPositionSlot);
    assert SlotIs(lower, entries, c, LowerCaseSlot);
  }

  lemma {:induction false} OtherSlotsSpelled(lower: Lowering, entries: seq<Entry>, c: TokenizerConfig)
    requires forall slot :: SlotIs(lower, entries, c, slot)
    ensures NumberIs(lower, entries, {"max-token-length"}, c.maxTokenLength, 40)
    ensures FlagIs(lower, entries, {"ascii-folding"}, c.asciiFolding, true)
    ensures FlagIs(lower, entries, {"stem"}, c.stem, true)
    ensures LanguageIs(lower, entries, {"language"}, c.language, "english")
    ensures FlagIs(lower, entries, {"remove-stop-words"}, c.removeStopWords, true)
    ensures WordsAre(lower, entries, {"stop-words"}, c.stopWords, [])
    ensures FlagIs(lower, entries, {"with-position"}, c.withPosition, true)
  {
    hide KindIs, NumberIs, FlagIs, LanguageIs, WordsAre;
    assert SlotIs(lower, entries, c, MaxTokenLengthSlot);
    assert SlotIs(lower, entries, c, AsciiFoldingSlot);
    assert SlotIs(lower, entries, c, StemSlot);
    assert SlotIs(lower, entries, c, LanguageSlot);
    assert SlotIs(lower, entries, c, RemoveStopWordsSlot);
    assert SlotIs(lower, entries, c, StopWordsSlot);
    assert SlotIs(lower, entries, c, WithPositionSlot);
  }

  lemma {:induction false} EachSlotSpelled(lower: Lowering, entries: seq<Entry>, c: TokenizerConfig, slot: Slot)
    requires Configured(lower, entries, c)
    ensures SlotIs(lower, entries, c, slot)
  {
    hide KindIs, NumberIs, FlagIs, LanguageIs, WordsAre;
  }

  predicate SlotIs(lower: Lowering, entries: seq<Entry>, c: TokenizerConfig, slot: Slot) {
    var keys := KeysOf(slot);
    match slot
    case TokenizerSlot => KindIs(lower, entries, keys, c.tokenizer, Default)
    case MinGramSlot => NumberIs(lower, entries, keys, c.ngramMinGram, 3)
    case MaxGramSlot => NumberIs(lower, entries, keys, c.ngramMaxGram, 3)
    case PrefixOnlySlot => FlagIs(lower, entries, keys, c.ngramPrefixOnly, false)
    case SearchModeSlot => FlagIs(lower, entries, keys, c.jiebaSearchMode, true)
    case OrdinalPositionSlot => FlagIs(lower, entries, keys, c.jiebaOrdinalPosition, true)
    case LowerCaseSlot => FlagIs(lower, entries, keys, c.lowerCase, true)
    case MaxTokenLengthSlot => NumberIs(lower, entries, keys, c.maxTokenLength, 40)
    case AsciiFoldingSlot => FlagIs(lower, entries, keys, c.asciiFolding, true)
    case StemSlot => FlagIs(lower, entries, keys, c.stem, true)
    case LanguageSlot => LanguageIs(lower, entries, keys, c.language, "english")
    case RemoveStopWordsSlot => FlagIs(lower, entries, keys, c.removeStopWords, true)
    case StopWordsSlot => WordsAre(lower, entries, keys, c.stopWords, [])
    case WithPositionSlot => FlagIs(lower, entries, keys, c.withPosition, true)
  }

  lemma {:induction false} SpelledSlot(lower: Lowering, entries: seq<Entry>, c: TokenizerConfig, slot: Slot)
    ensures FieldSays(lower, entries, c, slot) <==> SlotIs(lower, entries, c, slot)
  {
    hide Trim, Numeral, FlagName, KindName, Split, Filter, MapSeq, LastUnder, KeysOf;
  }

  /** Everything `from_options` does: it gives exactly the configuration in which every field is what the last entry under
      its keys says, or the default, provided all values are readable and the configuration is consistent. */
  lemma {:induction false} FromOptionsConfigures(lower: Lowering, entries: seq<Entry>, c: TokenizerConfig)
    ensures Outcome(lower, entries) == Ok(c) <==>
      && (forall e :: e in entries ==> Readable(lower, e))
      && KindIs(lower, entries, {"tokenizer"}, c.tokenizer, Default)
      && NumberIs(lower, entries, {"ngram.min-gram"}, c.ngramMinGram, 3)
      && NumberIs(lower, entries, {"ngram.max-gram"}, c.ngramMaxGram, 3)
      && FlagIs(lower, entries, {"ngram.prefix-only"}, c.ngramPrefixOnly, false)
      && FlagIs(lower, entries, {"jieba.search-mode"}, c.jiebaSearchMode, true)
      && FlagIs(lower, entries, {"jieba.ordinal-position", "jieba.ordinal-position-mode"}, c.jiebaOrdinalPosition, true)
      && FlagIs(lower, entries, {"lower-case"}, c.lowerCase, true)
      && NumberIs(lower, entries, {"max-token-length"}, c.maxTokenLength, 40)
      && FlagIs(lower, entries, {"ascii-folding"}, c.asciiFolding, true)
      && FlagIs(lower, entries, {"stem"}, c.stem, true)
      && LanguageIs(lower, entries, {"language"}, c.language, "english")
      && FlagIs(lower, entries, {"remove-stop-words"}, c.removeStopWords, true)
      && WordsAre(lower, entries, {"stop-words"}, c.stopWords, [])
      && FlagIs(lower, entries, {"with-position"}, c.withPosition, true)
      && 1 <= c.ngramMinGram <= c.ngramMaxGram && 1 <= c.maxTokenLength && (c.stopWords != [] ==> c.removeStopWords)
  {
    hide ParseEntry, Readable, FieldSays, KindIs, NumberIs, FlagIs, LanguageIs, WordsAre, Complaint, Assign, Outcome, Parses, Folded;
    SpelledOut(lower, entries, c);
    forall e ensures ParseEntry(lower, e).Ok? <==> Readable(lower, e) {
      ReadableIff(lower, e);
    }
    ConsistentIff(c);
    OutcomeIs(lower, entries, c);
    if Parses(lower, entries) {
      forall slot ensures FieldSays(lower, entries, Folded(lower, entries), slot) {
        FoldedSays(lower, entries, slot);
      }
      if forall slot :: FieldSays(lower, entries, c, slot) {
        SayingsDetermine(lower, entries, c, Folded(lower, entries));
      }
    }
  }

  lemma {:induction false} OutcomeIs(lower: Lowering, entries: seq<Entry>, c: TokenizerConfig)
    ensures Outcome(lower, entries) == Ok(c) <==> Parses(lower, entries) && c == Folded(lower, entries) && Complaint(c).None?
    ensures Parses(lower, entries) <==> forall e :: e in entries ==> ParseEntry(lower, e).Ok?
  {
    hide ParseEntry, Assign, Complaint;
  }

  /** When a configuration is consistent, and which option is blamed when it is not. */
  lemma {:induction false} ConsistentIff(c: TokenizerConfig)
    ensures var grams := 1 <= c.ngramMinGram <= c.ngramMaxGram;
      && (Complaint(c).None? <==> grams && 1 <= c.maxTokenLength && (c.stopWords != [] ==> c.removeStopWords))
      && (Complaint(c) == Some("ngram.min-gram") <==> c.ngramMinGram == 0 || 1 <= c.ngramMaxGram < c.ngramMinGram)
      && (Complaint(c) == Some("ngram.max-gram") <==> c.ngramMaxGram == 0 < c.ngramMinGram)
      && (Complaint(c) == Some("max-token-length") <==> grams && c.maxTokenLength == 0)
      && (Complaint(c) == Some("stop-words") <==> grams && 1 <= c.maxTokenLength && c.stopWords != [] && !c.removeStopWords)
  {
  }

  // ---- Field options ----

  function FieldKeys(lower: Lowering): (r: Normaliser) {
    key => IndexConfig.Key(lower, key)
  }

  /** Field keys are the tokenizer's keys with dashes for underscores. */
  lemma {:induction false} FieldKeySpellings(lower: Lowering, rawKey: string)
    ensures var tokenizerKey, fieldKey := Key(lower, rawKey), IndexConfig.Key(lower, rawKey);
      && |fieldKey| == |tokenizerKey|
      && forall i :: 0 <= i < |fieldKey| ==> fieldKey[i] == if tokenizerKey[i] == '_' then '-' else tokenizerKey[i]
  {
    ReplaceOfOneChar(Key(lower, rawKey), '_', '-');
    hide Trim, StripNamespace, Replace;
  }

  /** The names a list value gives: its pieces between commas and semicolons, without outer blanks, blank ones dropped. */
  function ListedNames(value: string): (r: seq<string>) {
    Filter((f: string) => f != "", MapSeq(Trim, Split(value, {',', ';'})))
  }

  /** The text fields asked for: the last list, else the last single field, else "text". */
  function AskedFor(lower: Lowering, entries: seq<Entry>): (r: seq<string>) {
    match LastUnder(FieldKeys(lower), entries, {"text-fields", "columns"})
    case Some(value) => ListedNames(value)
    case None =>
      match LastUnder(FieldKeys(lower), entries, {"text-field"})
      case Some(value) => [Trim(value)]
      case None => ["text"]
  }

  function RowIdAskedFor(lower: Lowering, entries: seq<Entry>): (r: string) {
    match LastUnder(FieldKeys(lower), entries, {"row-id-field"}) case Some(value) => Trim(value) case None => "row_id"
  }

  /** Names must not be blank, and a list must name something. */
  predicate FieldReadable(lower: Lowering, e: Entry) {
    var key := IndexConfig.Key(lower, e.0);
    && (key in {"row-id-field", "text-field"} ==> Trim(e.1) != "")
    && (key in {"text-fields", "columns"} ==> ListedNames(e.1) != [])
  }

  lemma {:induction false} FieldReadableIff(lower: Lowering, e: Entry)
    ensures IndexConfig.ParseEntry(lower, e).Ok? <==> FieldReadable(lower, e)
  {
    hide Trim, Filter, Split, IndexConfig.Key;
    DedupedKeepsFirstOccurrences(ListedNames(e.1));
    var names := ListedNames(e.1);
    assert names != [] ==> names[0] in Deduped(names);
    assert Deduped(names) != [] ==> Deduped(names)[0] in names;
  }

  /** What the loop's three options hold after these entries. */
  lemma {:induction false} FieldsHold(lower: Lowering, entries: seq<Entry>)
    requires IndexConfig.Parses(lower, entries)
    ensures var f := IndexConfig.FoldedFields(lower, entries);
      && f.rowId == Trimmed(LastUnder(FieldKeys(lower), entries, {"row-id-field"}))
      && f.textField == Trimmed(LastUnder(FieldKeys(lower), entries, {"text-field"}))
      && f.textFields == Listed(LastUnder(FieldKeys(lower), entries, {"text-fields", "columns"}))
  {
    hide Trimmed, Listed, IndexConfig.Key, IndexConfig.ParseEntry, IndexConfig.FoldedFields;
    if entries == [] {
      NoFieldsFolded(lower);
    } else {
      var n := |entries| - 1;
      var init, last := entries[..n], entries[n];
      assert entries == init + [last];
      IndexConfig.FoldedFieldsAppend(lower, init, last);
      FieldsHold(lower, init);
      ParsedField(lower, last);
    }
  }

  function Trimmed(value: Option<string>): (r: Option<string>) {
    match value case Some(v) => Some(Trim(v)) case None => None
  }

  function Listed(value: Option<string>): (r: Option<seq<string>>) {
    match value case Some(v) => Some(Deduped(ListedNames(v))) case None => None
  }

  lemma {:induction false} NoFieldsFolded(lower: Lowering)
    ensures IndexConfig.Parses(lower, [])
    ensures IndexConfig.FoldedFields(lower, []) == IndexConfig.Fields(Trimmed(None), Trimmed(None), Listed(None))
  {
  }

  lemma {:induction false} ParsedField(lower: Lowering, e: Entry)
    requires IndexConfig.ParseEntry(lower, e).Ok?
    ensures var key, s := FieldKeys(lower)(e.0), IndexConfig.ParseEntry(lower, e).value;
      && (s.SetRowId? <==> key in {"row-id-field"}) && (s.SetTextField? <==> key in {"text-field"})
      && (s.SetTextFields? <==> key in {"text-fields", "columns"})
      && (s.SetRowId? ==> Trimmed(Some(e.1)) == Some(s.name))
      && (s.SetTextField? ==> Trimmed(Some(e.1)) == Some(s.name))
      && (s.SetTextFields? ==> Listed(Some(e.1)) == Some(s.names))
  {
    hide Trim, Filter, Split, MapSeq, Deduped, IndexConfig.Key;
  }

  /** A list in first occurrence order is the deduplicated one. */
  lemma {:induction false} DedupedIff(asked: seq<string>, fields: seq<string>)
    ensures fields == Deduped(asked) <==> InFirstOccurrenceOrder(asked, fields)
  {
    DedupedKeepsFirstOccurrences(asked);
    hide InFirstOccurrenceOrder, Deduped;
    if InFirstOccurrenceOrder(asked, fields) {
      FirstOccurrenceOrderIsUnique(asked, fields, Deduped(asked));
    }
  }

  lemma {:induction false} ChosenAreAskedFor(lower: Lowering, entries: seq<Entry>)
    requires IndexConfig.Parses(lower, entries)
    ensures var f := IndexConfig.FoldedFields(lower, entries);
      && IndexConfig.ChosenTextFields(f) == Deduped(AskedFor(lower, entries))
      && (if f.rowId.Some? then f.rowId.value else IndexConfig.DEFAULT_ROW_ID_FIELD) == RowIdAskedFor(lower, entries)
  {
    FieldsHold(lower, entries);
    hide Trim, ListedNames, Deduped, IndexConfig.FoldedFields, IndexConfig.Parses, LastUnder;
    var list := LastUnder(FieldKeys(lower), entries, {"text-fields", "columns"});
    if list.Some? {
      DedupedIsIdempotent(ListedNames(list.value));
    }
  }

  /** When an index configuration is consistent, and which option is blamed when it is not. */
  lemma {:induction false} ConfigIsConsistentIff(c: IndexConfig.Config)
    ensures var fields := c.textFields != [] && forall f :: f in c.textFields ==> Trim(f) != "" && f != c.rowIdField;
      && (IndexConfig.Complaint(c).None? <==> Trim(c.rowIdField) != "" && fields && Complaint(c.tokenizer).None?)
      && (IndexConfig.Complaint(c) == Some("row-id-field") <==> Trim(c.rowIdField) == "")
      && (IndexConfig.Complaint(c) == Some("text-fields") <==> Trim(c.rowIdField) != "" && !fields)
      && (Trim(c.rowIdField) != "" && fields ==> IndexConfig.Complaint(c) == Complaint(c.tokenizer))
  {
    ConsistentIff(c.tokenizer);
    hide Trim;
  }

  lemma {:induction false} IndexOutcomeIs(lower: Lowering, entries: seq<Entry>, c: IndexConfig.Config)
    ensures IndexConfig.Outcome(lower, entries) == Ok(c) <==>
      && Outcome(lower, entries) == Ok(c.tokenizer)
      && IndexConfig.Parses(lower, entries)
      && var f := IndexConfig.FoldedFields(lower, entries);
      && c.rowIdField == (if f.rowId.Some? then f.rowId.value else IndexConfig.DEFAULT_ROW_ID_FIELD)
      && c.textFields == IndexConfig.ChosenTextFields(f)
      && IndexConfig.Complaint(c).None?
    ensures IndexConfig.Parses(lower, entries) <==> forall e :: e in entries ==> IndexConfig.ParseEntry(lower, e).Ok?
    ensures Outcome(lower, entries) == Ok(c.tokenizer) ==> Complaint(c.tokenizer).None?
  {
    hide IndexConfig.ParseEntry, IndexConfig.Complaint, ParseEntry, Complaint, IndexConfig.ChosenTextFields;
  }

  /** Everything the index configuration's `from_options` does: the tokenizer as above; the row id field and the text
      fields as the last entries under their keys say, a field list before a single field, and otherwise "row_id" and
      "text"; each text field once in the order asked for, no name blank, the row id field not among the text fields. */
  lemma {:induction false} FieldOptionsConfigure(lower: Lowering, entries: seq<Entry>, c: IndexConfig.Config)
    ensures IndexConfig.Outcome(lower, entries) == Ok(c) <==>
      && Outcome(lower, entries) == Ok(c.tokenizer)
      && (forall e :: e in entries ==> FieldReadable(lower, e))
      && c.rowIdField == (match LastUnder(FieldKeys(lower), entries, {"row-id-field"}) case Some(value) => Trim(value) case None => "row_id")
      && InFirstOccurrenceOrder(
           match LastUnder(FieldKeys(lower), entries, {"text-fields", "columns"})
           case Some(value) => ListedNames(value)
           case None =>
             (match LastUnder(FieldKeys(lower), entries, {"text-field"}) case Some(value) => [Trim(value)] case None => ["text"]),
           c.textFields)
      && Trim(c.rowIdField) != "" && forall f :: f in c.textFields ==> Trim(f) != "" && f != c.rowIdField
  {
    forall e ensures IndexConfig.ParseEntry(lower, e).Ok? <==> FieldReadable(lower, e) {
      FieldReadableIff(lower, e);
    }
    IndexOutcomeIs(lower, entries, c);
    ConfigIsConsistentIff(c);
    DedupedIff(AskedFor(lower, entries), c.textFields);
    hide IndexConfig.ParseEntry, FieldReadable, Outcome, Trim, InFirstOccurrenceOrder, IndexConfig.Complaint, Complaint, ListedNames,
      IndexConfig.Outcome, IndexConfig.Parses, IndexConfig.FoldedFields, IndexConfig.ChosenTextFields, Deduped, LastUnder;
    if IndexConfig.Parses(lower, entries) {
      ChosenAreAskedFor(lower, entries);
      SomethingIsChosen(lower, entries);
    }
  }

  lemma {:induction false} SomethingIsChosen(lower: Lowering, entries: seq<Entry>)
    requires IndexConfig.Parses(lower, entries)
    ensures IndexConfig.ChosenTextFields(IndexConfig.FoldedFields(lower, entries)) != []
  {
    IndexConfig.ChosenFieldsNeverEmpty(lower, entries);
  }
}
