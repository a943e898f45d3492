/** Tokenizer options folded out of an unordered option map (tokenizer.rs). */
module TokenizerOptions {
  import opened Base
  import opened OrderedFold

  datatype TokenizerKind = Default | Simple | Whitespace | Raw | Ngram | Jieba | Icu | IcuSplit

  datatype TokenizerConfig = TokenizerConfig(
    tokenizer: TokenizerKind,
    ngramMinGram: nat,
    ngramMaxGram: nat,
    ngramPrefixOnly: bool,
    jiebaSearchMode: bool,
    jiebaOrdinalPosition: bool,
    lowerCase: bool,
    maxTokenLength: nat,
    asciiFolding: bool,
    stem: bool,
    language: string,
    removeStopWords: bool,
    stopWords: seq<string>,
    withPosition: bool)

  const DEFAULT_CONFIG: TokenizerConfig :=
    TokenizerConfig(Default, 3, 3, false, true, true, true, 40, true, true, "english", true, [], true)

  // One entry of the option map, and `str::to_lowercase`, of which nothing is assumed.
  type Entry = (string, string)
  type Lowering = string -> string

  /** The options: one slot per field of the configuration. */
  datatype Slot =
    | TokenizerSlot | MinGramSlot | MaxGramSlot | PrefixOnlySlot | SearchModeSlot | OrdinalPositionSlot
    | LowerCaseSlot | MaxTokenLengthSlot | AsciiFoldingSlot | StemSlot | LanguageSlot | RemoveStopWordsSlot
    | StopWordsSlot | WithPositionSlot

  /** What one entry assigns; an entry with any other key assigns nothing. */
  datatype Setting =
    | SetTokenizer(kind: TokenizerKind)
    | SetMinGram(n: nat)
    | SetMaxGram(n: nat)
    | SetPrefixOnly(flag: bool)
    | SetSearchMode(flag: bool)
    | SetOrdinalPosition(flag: bool)
    | SetLowerCase(flag: bool)
    | SetMaxTokenLength(n: nat)
    | SetAsciiFolding(flag: bool)
    | SetStem(flag: bool)
    | SetLanguage(text: string)
    | SetRemoveStopWords(flag: bool)
    | SetStopWords(words: seq<string>)
    | SetWithPosition(flag: bool)
    | Nothing

  function StripPrefix(s: string, prefix: string): (r: Option<string>) {
    if prefix <= s then Some(s[|prefix|..]) else None
  }

  /** Both option folds drop one leading namespace; it is stripped before any trimming. */
  function StripNamespace(rawKey: string): (r: string) {
    match StripPrefix(rawKey, "fulltext.")
    case Some(key) => key
    case None => match StripPrefix(rawKey, "tantivy.") case Some(key) => key case None => rawKey
  }

  function Key(lower: Lowering, rawKey: string): (r: string) {
    lower(Trim(StripNamespace(rawKey)))
  }

  function ParseDigits(s: string, acc: nat): (r: Option<nat>) {
    if s == "" then Some(acc)
    else if '0' <= s[0] <= '9' then
      var n := 10 * acc + (s[0] as int - '0' as int);
      if n > USIZE_MAX then None else ParseDigits(s[1..], n)
    else None
  }

  /** `str::parse::<usize>`: an optional plus sign, at least one digit, no overflow. */
  function ParseUsize(s: string): (r: Option<nat>) {
    var digits := if s != "" && s[0] == '+' then s[1..] else s;
    if digits == "" then None else ParseDigits(digits, 0)
  }

  function ParseBool(lower: Lowering, value: string): (r: Option<bool>) {
    var v := lower(Trim(value));
    if v == "true" then Some(true) else if v == "false" then Some(false) else None
  }

  function ParseTokenizer(lower: Lowering, value: string): (r: Option<TokenizerKind>) {
    match lower(Trim(value))
    case "default" => Some(Default)
    case "simple" => Some(Simple)
    case "whitespace" => Some(Whitespace)
    case "raw" => Some(Raw)
    case "ngram" => Some(Ngram)
    case "jieba" => Some(Jieba)
    case "icu" => Some(Icu)
    case "icu/split" => Some(IcuSplit)
    case _ => None
  }

  function SlotFor(key: string): (r: Option<Slot>) {
    match key
    case "tokenizer" => Some(TokenizerSlot)
    case "ngram.min-gram" => Some(MinGramSlot)
    case "ngram.max-gram" => Some(MaxGramSlot)
    case "ngram.prefix-only" => Some(PrefixOnlySlot)
    case "jieba.search-mode" => Some(SearchModeSlot)
    case "jieba.ordinal-position" => Some(OrdinalPositionSlot)
    case "jieba.ordinal-position-mode" => Some(OrdinalPositionSlot)
    case "lower-case" => Some(LowerCaseSlot)
    case "max-token-length" => Some(MaxTokenLengthSlot)
    case "ascii-folding" => Some(AsciiFoldingSlot)
    case "stem" => Some(StemSlot)
    case "language" => Some(LanguageSlot)
    case "remove-stop-words" => Some(RemoveStopWordsSlot)
    case "stop-words" => Some(StopWordsSlot)
    case "with-position" => Some(WithPositionSlot)
    case _ => None
  }

  function OfFlag(parsed: Option<bool>, setting: bool -> Setting): (r: Option<Setting>) {
    match parsed case Some(b) => Some(setting(b)) case None => None
  }

  function OfNumber(parsed: Option<nat>, setting: nat -> Setting): (r: Option<Setting>) {
    match parsed case Some(n) => Some(setting(n)) case None => None
  }

  function ParseValue(lower: Lowering, slot: Slot, value: string): (r: Option<Setting>)
    ensures r.Some? ==> SlotOf(r.value) == Some(slot)
  {
    match slot
    case TokenizerSlot =>
      (match ParseTokenizer(lower, value) case Some(k) => Some(SetTokenizer(k)) case None => None)
    case MinGramSlot => OfNumber(ParseUsize(Trim(value)), (n: nat) => SetMinGram(n))
    case MaxGramSlot => OfNumber(ParseUsize(Trim(value)), (n: nat) => SetMaxGram(n))
    case PrefixOnlySlot => OfFlag(ParseBool(lower, value), b => SetPrefixOnly(b))
    case SearchModeSlot => OfFlag(ParseBool(lower, value), b => SetSearchMode(b))
    case OrdinalPositionSlot => OfFlag(ParseBool(lower, value), b => SetOrdinalPosition(b))
    case LowerCaseSlot => OfFlag(ParseBool(lower, value), b => SetLowerCase(b))
    case MaxTokenLengthSlot => OfNumber(ParseUsize(Trim(value)), (n: nat) => SetMaxTokenLength(n))
    case AsciiFoldingSlot => OfFlag(ParseBool(lower, value), b => SetAsciiFolding(b))
    case StemSlot => OfFlag(ParseBool(lower, value), b => SetStem(b))
    case LanguageSlot => Some(SetLanguage(lower(Trim(value))))
    case RemoveStopWordsSlot => OfFlag(ParseBool(lower, value), b => SetRemoveStopWords(b))
    case StopWordsSlot => Some(SetStopWords(Filter((w: string) => w != "", MapSeq(Trim, Split(value, {';'})))))
    case WithPositionSlot => OfFlag(ParseBool(lower, value), b => SetWithPosition(b))
  }

  function SlotOf(s: Setting): (r: Option<Slot>) {
    match s
    case SetTokenizer(_) => Some(TokenizerSlot)
    case SetMinGram(_) => Some(MinGramSlot)
    case SetMaxGram(_) => Some(MaxGramSlot)
    case SetPrefixOnly(_) => Some(PrefixOnlySlot)
    case SetSearchMode(_) => Some(SearchModeSlot)
    case SetOrdinalPosition(_) => Some(OrdinalPositionSlot)
    case SetLowerCase(_) => Some(LowerCaseSlot)
    case SetMaxTokenLength(_) => Some(MaxTokenLengthSlot)
    case SetAsciiFolding(_) => Some(AsciiFoldingSlot)
    case SetStem(_) => Some(StemSlot)
    case SetLanguage(_) => Some(LanguageSlot)
    case SetRemoveStopWords(_) => Some(RemoveStopWordsSlot)
    case SetStopWords(_) => Some(StopWordsSlot)
    case SetWithPosition(_) => Some(WithPositionSlot)
    case Nothing => None
  }

  function ParseEntry(lower: Lowering, entry: Entry): (r: Result<Setting>) {
    var key := Key(lower, entry.0);
    match SlotFor(key)
    case None => Ok(Nothing)
    case Some(slot) =>
      match ParseValue(lower, slot, entry.1)
      case Some(setting) => Ok(setting)
      case None => Err(InvalidOption(key))
  }

  /** The assignment of one arm of the option match: one field replaced. */
  function Assign(c: TokenizerConfig, s: Setting): (r: TokenizerConfig) {
    TokenizerConfig(
      if s.SetTokenizer? then s.kind else c.tokenizer,
      if s.SetMinGram? then s.n else c.ngramMinGram,
      if s.SetMaxGram? then s.n else c.ngramMaxGram,
      if s.SetPrefixOnly? then s.flag else c.ngramPrefixOnly,
      if s.SetSearchMode? then s.flag else c.jiebaSearchMode,
      if s.SetOrdinalPosition? then s.flag else c.jiebaOrdinalPosition,
      if s.SetLowerCase? then s.flag else c.lowerCase,
      if s.SetMaxTokenLength? then s.n else c.maxTokenLength,
      if s.SetAsciiFolding? then s.flag else c.asciiFolding,
      if s.SetStem? then s.flag else c.stem,
      if s.SetLanguage? then s.text else c.language,
      if s.SetRemoveStopWords? then s.flag else c.removeStopWords,
      if s.SetStopWords? then s.words else c.stopWords,
      if s.SetWithPosition? then s.flag else c.withPosition)
  }

  /** `TokenizerConfig::validate`: the key it complains about, if any. */
  function Complaint(c: TokenizerConfig): (r: Option<string>) {
    if c.ngramMinGram == 0 then Some("ngram.min-gram")
    else if c.ngramMaxGram == 0 then Some("ngram.max-gram")
    else if c.ngramMinGram > c.ngramMaxGram then Some("ngram.min-gram")
    else if c.maxTokenLength == 0 then Some("max-token-length")
    else if !c.removeStopWords && c.stopWords != [] then Some("stop-words")
    else None
  }

  predicate Valid(c: TokenizerConfig) {
    Complaint(c).None?
  }

  /** The configuration an iteration order leads to. */
  function Outcome(lower: Lowering, entries: seq<Entry>): (r: Result<TokenizerConfig>) {
    var settings :- ParseAll(e => ParseEntry(lower, e), entries);
    var config := Fold(Assign, DEFAULT_CONFIG, settings);
    match Complaint(config) case None => Ok(config) case Some(key) => Err(InvalidOption(key))
  }

  /** `TokenizerConfig::from_options`, with `entries` the order in which the hash map is visited. */
  method FromOptions(lower: Lowering, entries: seq<Entry>) returns (r: Result<TokenizerConfig>)
    ensures r == Outcome(lower, entries)
  {
    var config := DEFAULT_CONFIG;
    ghost var parse := e => ParseEntry(lower, e);
    for i := 0 to |entries|
      invariant ParseAll(parse, entries[..i]).Ok?
      invariant config == Fold(Assign, DEFAULT_CONFIG, ParseAll(parse, entries[..i]).value)
    {
      assert entries[..i + 1][..i] == entries[..i];
      var parsed := ParseEntry(lower, entries[i]);
      if parsed.Err? {
        FirstFailureWins(parse, entries, i + 1);
        return Err(parsed.error);
      }
      FoldAppend(Assign, DEFAULT_CONFIG, ParseAll(parse, entries[..i]).value, parsed.value);
      config := Assign(config, parsed.value);
    }
    assert entries[..|entries|] == entries;
    var complaint := Complaint(config);
    if complaint.Some? {
      return Err(InvalidOption(complaint.value));
    }
    r := Ok(config);
  }

  // ---- Independence of the visiting order ----

  /** Two settings compete when they write different values to the same field. */
  predicate Compete(a: Setting, b: Setting) {
    a != b && SlotOf(a).Some? && SlotOf(a) == SlotOf(b)
  }

  ghost predicate NoneCompete(settings: seq<Setting>) {
    forall a, b :: a in settings && b in settings ==> !Compete(a, b)
  }

  lemma {:induction false} CompetitorsDisagree(c: TokenizerConfig, a: Setting, b: Setting)
    ensures Compete(a, b) <==> Assign(Assign(c, a), b) != Assign(Assign(c, b), a)
  {
    if Compete(a, b) {
      LastWriteWins(Assign(c, b), Assign(c, a), a, b);
    } else {
      OthersCommute(c, a, b);
    }
  }

  predicate SameKind(a: Setting, b: Setting) {
    || (a.SetTokenizer? && b.SetTokenizer?) || (a.SetMinGram? && b.SetMinGram?)
    || (a.SetMaxGram? && b.SetMaxGram?) || (a.SetPrefixOnly? && b.SetPrefixOnly?)
    || (a.SetSearchMode? && b.SetSearchMode?) || (a.SetOrdinalPosition? && b.SetOrdinalPosition?)
    || (a.SetLowerCase? && b.SetLowerCase?) || (a.SetMaxTokenLength? && b.SetMaxTokenLength?)
    || (a.SetAsciiFolding? && b.SetAsciiFolding?) || (a.SetStem? && b.SetStem?)
    || (a.SetLanguage? && b.SetLanguage?) || (a.SetRemoveStopWords? && b.SetRemoveStopWords?)
    || (a.SetStopWords? && b.SetStopWords?) || (a.SetWithPosition? && b.SetWithPosition?)
  }

  lemma {:induction false} SameSlotIffSameKind(a: Setting, b: Setting)
    ensures SlotOf(a).Some? && SlotOf(a) == SlotOf(b) <==> SameKind(a, b)
  {
  }

  lemma {:induction false} OthersCommute(c: TokenizerConfig, a: Setting, b: Setting)
    requires !Compete(a, b)
    ensures Assign(Assign(c, a), b) == Assign(Assign(c, b), a)
  {
    hide SlotOf;
    SameSlotIffSameKind(a, b);
  }

  lemma {:induction false} LastWriteWins(c: TokenizerConfig, d: TokenizerConfig, a: Setting, b: Setting)
    requires Compete(a, b)
    ensures Assign(c, a) != Assign(d, b)
  {
  }

  /** The fold gives every permutation of `settings` the same configuration. */
  ghost predicate OrderIrrelevant(settings: seq<Setting>) {
    forall other :: multiset(other) == multiset(settings) ==>
      Fold(Assign, DEFAULT_CONFIG, other) == Fold(Assign, DEFAULT_CONFIG, settings)
  }

  /** The order is irrelevant exactly when no two settings compete for a field. */
  lemma {:induction false} OrderIrrelevantIffNoneCompete(settings: seq<Setting>)
    ensures OrderIrrelevant(settings) <==> NoneCompete(settings)
  {
    if NoneCompete(settings) {
      forall other | multiset(other) == multiset(settings)
        ensures Fold(Assign, DEFAULT_CONFIG, other) == Fold(Assign, DEFAULT_CONFIG, settings)
      {
        forall a, b | a in settings && b in settings ensures Commute(Assign, a, b) {
          forall c ensures Assign(Assign(c, a), b) == Assign(Assign(c, b), a) {
            CompetitorsDisagree(c, a, b);
          }
        }
        FoldIsOrderIndependent(Assign, DEFAULT_CONFIG, settings, other);
      }
    } else {
      var a, b :| a in settings && b in settings && Compete(a, b);
      LastCompetitorWins(settings, a, b);
    }
  }

  lemma {:induction false} LastCompetitorWins(settings: seq<Setting>, a: Setting, b: Setting)
    requires a in settings && b in settings && Compete(a, b)
    ensures !OrderIrrelevant(settings)
  {
    hide Assign;
    var rest := LeaveTwoOut(settings, a, b);
    FoldAppend(Assign, DEFAULT_CONFIG, rest + [a], b);
    FoldAppend(Assign, DEFAULT_CONFIG, rest + [b], a);
    LastWriteWins(Fold(Assign, DEFAULT_CONFIG, rest + [b]), Fold(Assign, DEFAULT_CONFIG, rest + [a]), a, b);
    OrderMatters(settings, rest + [a] + [b], rest + [b] + [a]);
  }

  lemma {:induction false} OrderMatters(settings: seq<Setting>, one: seq<Setting>, other: seq<Setting>)
    requires multiset(one) == multiset(settings) == multiset(other)
    requires Fold(Assign, DEFAULT_CONFIG, one) != Fold(Assign, DEFAULT_CONFIG, other)
    ensures !OrderIrrelevant(settings)
  {
    hide Assign, Fold;
  }

  ghost predicate EntriesCompete(lower: Lowering, e: Entry, f: Entry) {
    && ParseEntry(lower, e).Ok? && ParseEntry(lower, f).Ok?
    && Compete(ParseEntry(lower, e).value, ParseEntry(lower, f).value)
  }

  /** Entries compete only when their keys name the same option, all spellings of an option counting as one. */
  lemma {:induction false} CompetingEntriesShareAnOption(lower: Lowering, e: Entry, f: Entry)
    requires EntriesCompete(lower, e, f)
    ensures SlotFor(Key(lower, e.0)).Some? && SlotFor(Key(lower, e.0)) == SlotFor(Key(lower, f.0))
  {
  }

  lemma {:induction false} ParsedDoNotCompete(lower: Lowering, entries: seq<Entry>, settings: seq<Setting>)
    requires forall e, f :: e in entries && f in entries ==> !EntriesCompete(lower, e, f)
    requires |settings| == |entries|
    requires forall i :: 0 <= i < |entries| ==> ParseEntry(lower, entries[i]) == Ok(settings[i])
    ensures NoneCompete(settings)
  {
    forall a, b | a in settings && b in settings ensures !Compete(a, b) {
      var i :| 0 <= i < |settings| && settings[i] == a;
      var j :| 0 <= j < |settings| && settings[j] == b;
      assert !EntriesCompete(lower, entries[i], entries[j]);
    }
  }

  /** Without competing entries, success and the configuration are the same for every visiting order. */
  lemma {:induction false} FromOptionsIgnoresOrder(lower: Lowering, xs: seq<Entry>, ys: seq<Entry>)
    requires multiset(xs) == multiset(ys)
    requires forall e, f :: e in xs && f in xs ==> !EntriesCompete(lower, e, f)
    ensures Outcome(lower, xs).Ok? <==> Outcome(lower, ys).Ok?
    ensures Outcome(lower, xs).Ok? ==> Outcome(lower, xs) == Outcome(lower, ys)
  {
    var parse := e => ParseEntry(lower, e);
    if ParseAll(parse, xs).Ok? {
      ParseAllPermuted(parse, xs, ys);
      ParsedDoNotCompete(lower, xs, ParseAll(parse, xs).value);
      OrderIrrelevantIffNoneCompete(ParseAll(parse, xs).value);
    } else if ParseAll(parse, ys).Ok? {
      ParseAllPermuted(parse, ys, xs);
    }
  }

  /** The fold over the parsed entries. */
  function Folded(lower: Lowering, entries: seq<Entry>): (r: TokenizerConfig)
    requires ParseAll(e => ParseEntry(lower, e), entries).Ok?
  {
    Fold(Assign, DEFAULT_CONFIG, ParseAll(e => ParseEntry(lower, e), entries).value)
  }

  predicate Parses(lower: Lowering, entries: seq<Entry>) {
    ParseAll(e => ParseEntry(lower, e), entries).Ok?
  }

  lemma {:induction false} OutcomeIsFolded(lower: Lowering, entries: seq<Entry>)
    ensures Outcome(lower, entries).Ok? ==> Parses(lower, entries) && Outcome(lower, entries).value == Folded(lower, entries)
  {
  }

  lemma {:induction false} ParsingIgnoresOrder(lower: Lowering, xs: seq<Entry>, ys: seq<Entry>)
    requires multiset(xs) == multiset(ys) && Parses(lower, xs)
    ensures Parses(lower, ys)
  {
    ParseAllPermuted(e => ParseEntry(lower, e), xs, ys);
  }

  /** The entry visited last is assigned last. */
  lemma {:induction false} FoldedAppend(lower: Lowering, entries: seq<Entry>, last: Entry)
    requires Parses(lower, entries + [last])
    ensures Parses(lower, entries) && ParseEntry(lower, last).Ok?
    ensures Folded(lower, entries + [last]) == Assign(Folded(lower, entries), ParseEntry(lower, last).value)
  {
    hide ParseEntry, Assign;
    var parse := e => ParseEntry(lower, e);
    ParseAllAppend(parse, entries, last);
    FoldAppend(Assign, DEFAULT_CONFIG, ParseAll(parse, entries).value, ParseEntry(lower, last).value);
  }

  /** With two competing entries, whichever is visited last decides: two orders never agree on a configuration. */
  lemma {:induction false} CompetingEntriesDependOnOrder(lower: Lowering, entries: seq<Entry>, e: Entry, f: Entry)
    returns (one: seq<Entry>, other: seq<Entry>)
    requires Parses(lower, entries) && e in entries && f in entries && EntriesCompete(lower, e, f)
    ensures multiset(one) == multiset(entries) == multiset(other)
    ensures Outcome(lower, one).Ok? ==> Outcome(lower, one) != Outcome(lower, other)
  {
    var rest := LeaveTwoOut(entries, e, f);
    one, other := rest + [e] + [f], rest + [f] + [e];
    ParsingIgnoresOrder(lower, entries, one);
    ParsingIgnoresOrder(lower, entries, other);
    FoldedAppend(lower, rest + [e], f);
    FoldedAppend(lower, rest + [f], e);
    LastWriteWins(Folded(lower, rest + [f]), Folded(lower, rest + [e]), ParseEntry(lower, e).value, ParseEntry(lower, f).value);
    OutcomeIsFolded(lower, one);
    OutcomeIsFolded(lower, other);
  }

  ghost predicate NoEntriesCompete(lower: Lowering, entries: seq<Entry>) {
    forall e, f :: e in entries && f in entries ==> !EntriesCompete(lower, e, f)
  }

  /** Every visiting order leads to the same outcome. */
  ghost predicate OrderNeverMatters(lower: Lowering, entries: seq<Entry>) {
    forall other :: multiset(other) == multiset(entries) ==> Outcome(lower, other) == Outcome(lower, entries)
  }

  /** Where one order succeeds, all orders give its configuration exactly when no two entries compete. */
  lemma {:induction false} OrderNeverMattersIffNoEntriesCompete(lower: Lowering, entries: seq<Entry>)
    requires Outcome(lower, entries).Ok?
    ensures OrderNeverMatters(lower, entries) <==> NoEntriesCompete(lower, entries)
  {
    hide Outcome, EntriesCompete;
    if NoEntriesCompete(lower, entries) {
      forall other | multiset(other) == multiset(entries) ensures Outcome(lower, other) == Outcome(lower, entries) {
        FromOptionsIgnoresOrder(lower, entries, other);
      }
    } else {
      var e, f :| e in entries && f in entries && EntriesCompete(lower, e, f);
      OutcomeIsFolded(lower, entries);
      var one, other := CompetingEntriesDependOnOrder(lower, entries, e, f);
      assert Outcome(lower, one) != Outcome(lower, entries) || Outcome(lower, other) != Outcome(lower, entries);
    }
  }

  /** Such entries exist: the plain and the namespaced spelling of one option, each order valid, the orders different. */
  lemma {:induction false} SpellingsOfStemCompete()
    ensures var lower := (s: string) => s;
      var e, f := ("stem", "true"), ("fulltext.stem", "false");
      && EntriesCompete(lower, e, f)
      && Outcome(lower, [e, f]).Ok? && Outcome(lower, [f, e]).Ok?
      && Outcome(lower, [e, f]) != Outcome(lower, [f, e])
  {
    var lower := (s: string) => s;
    var e, f := ("stem", "true"), ("fulltext.stem", "false");
    StemParses(lower);
    hide ParseEntry;
    OutcomeOfTwo(lower, e, f);
    OutcomeOfTwo(lower, f, e);
  }

  lemma {:induction false} OutcomeOfTwo(lower: Lowering, e: Entry, f: Entry)
    requires ParseEntry(lower, e).Ok? && ParseEntry(lower, f).Ok?
    ensures var c := Assign(Assign(DEFAULT_CONFIG, ParseEntry(lower, e).value), ParseEntry(lower, f).value);
      Outcome(lower, [e, f]) == match Complaint(c) case None => Ok(c) case Some(key) => Err(InvalidOption(key))
  {
    hide ParseEntry, Assign, Complaint;
    assert [] + [e] == [e] && [e] + [f] == [e, f];
    FoldedAppend(lower, [e], f);
    FoldedAppend(lower, [], e);
  }

  lemma {:induction false} StemParses(lower: Lowering)
    requires forall s :: lower(s) == s
    ensures ParseEntry(lower, ("stem", "true")) == Ok(SetStem(true))
    ensures ParseEntry(lower, ("fulltext.stem", "false")) == Ok(SetStem(false))
  {
    StemKeys(lower);
    assert ParseBool(lower, "true") == Some(true);
    assert ParseBool(lower, "false") == Some(false);
    hide Key, ParseBool;
  }

  lemma {:induction false} StemKeys(lower: Lowering)
    requires forall s :: lower(s) == s
    ensures Key(lower, "stem") == Key(lower, "fulltext.stem") == "stem"
  {
    assert !("fulltext." <= "stem") && !("tantivy." <= "stem");
    assert "fulltext." <= "fulltext.stem" && "fulltext.stem"[9..] == "stem";
    assert Trim("stem") == "stem";
  }
}
