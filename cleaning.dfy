/**
 * The message cleaner (`clean_dataframe`): drops incomplete rows, then drops
 * every row whose message contains, ignoring case, one of the literal
 * patterns listed under `skip_messages` in the configuration document.
 */
module Cleaning {
  import opened Wrappers
  import opened Sequences

  /** One row of the chat table; any field may be missing (NaN / None). */
  datatype Row = Row(datetime: Option<int>, user: Option<string>, message: Option<string>)

  /**
   * A parsed YAML value: a string, a mapping (its items as written in the
   * document, where a key may repeat; `Dict` gives the dict the loader builds
   * from them), or anything else (a number, a boolean, null, a list).
   */
  datatype Yaml = Str(text: string) | Mapping(items: seq<(string, Yaml)>) | OtherValue

  /**
   * What reading `config.yaml` produced: a document, no file, a parse error,
   * or any other failure to read it (no permission, text that is not UTF-8).
   */
  datatype ConfigSource = Found(doc: Yaml) | NotFound | Malformed | Unreadable

  /**
   * `FileNotFoundError`, `yaml.YAMLError`, and every other exception raised
   * inside the `try` (an attribute lookup on a value that is not a mapping,
   * `re.escape` of a value that is not a string), which is re-raised unchanged.
   */
  datatype CleanError = ConfigNotFound | ConfigMalformed | UnexpectedFailure

  // ---------------------------------------------------------------------------
  // Completeness (`dropna`)

  predicate IsComplete(row: Row)
  {
    row.datetime.Some? && row.user.Some? && row.message.Some?
  }

  /** The rows with no missing field, in order. */
  function Complete(rows: seq<Row>): (r: seq<Row>)
    ensures forall i :: 0 <= i < |r| ==> IsComplete(r[i])
    ensures forall row :: row in r ==> IsComplete(row)
  {
    Filter(rows, IsComplete)
  }

  /** The pandas table the cleaner works on: `dropna(inplace=True)` updates it in place. */
  class Frame {
    var rows: seq<Row>

    constructor (rows: seq<Row>)
      ensures this.rows == rows
    {
      this.rows := rows;
    }

    /** `df.copy()`: a new table with the same rows. */
    method Copy() returns (c: Frame)
      ensures fresh(c) && c.rows == rows
    {
      c := new Frame(rows);
    }

    /** `dropna(inplace=True)`: keeps only the complete rows, in order. */
    method DropNa()
      modifies this
      ensures rows == Complete(old(rows))
    {
      var source := rows;
      var kept := [];
      var i := 0;
      while i < |source|
        invariant 0 <= i <= |source|
        invariant kept == Filter(source[..i], IsComplete)
      {
        assert source[..i + 1][..i] == source[..i];
        if IsComplete(source[i]) {
          kept := kept + [source[i]];
        }
        i := i + 1;
      }
      assert source[..i] == source;
      rows := kept;
    }
  }

  // ---------------------------------------------------------------------------
  // Pattern assembly

  /** `entry.values()`: the values of the dict the loader built from a mapping, in the dict's order. */
  function Values(items: seq<(string, Yaml)>): seq<Yaml>
  {
    var d := Dict(items);
    seq(|d|, i requires 0 <= i < |d| => d[i].1)
  }

  /** What one category adds to the pattern list: its values if it is a mapping, nothing otherwise. */
  function Contribution(entry: Yaml): seq<Yaml>
  {
    match entry
    case Mapping(items) => Values(items)
    case _ => []
  }

  /** The pattern list of a `skip_messages` mapping: the categories' contributions, in order. */
  function Flatten(categories: seq<(string, Yaml)>): seq<Yaml>
  {
    if categories == [] then []
    else Flatten(categories[..|categories| - 1]) + Contribution(categories[|categories| - 1].1)
  }

  /** One more category adds its contribution at the end. */
  lemma FlattenSnoc(categories: seq<(string, Yaml)>, category: (string, Yaml))
    ensures Flatten(categories + [category]) == Flatten(categories) + Contribution(category.1)
  {
    assert (categories + [category])[..|categories|] == categories;
  }

  lemma {:induction false} FlattenAppend(a: seq<(string, Yaml)>, b: seq<(string, Yaml)>)
    ensures Flatten(a + b) == Flatten(a) + Flatten(b)
  {
    if b == [] {
      assert a + b == a;
    } else {
      var b', last := b[..|b| - 1], b[|b| - 1];
      SplitLast(a, b);
      FlattenSnoc(a + b', last);
      FlattenSnoc(b', last);
      FlattenAppend(a, b');
      AppendAssociative(Flatten(a), Flatten(b'), Contribution(last.1));
    }
  }

  /** A category whose value is a mapping contributes all its values, in place. */
  lemma FlattenMappingCategory(a: seq<(string, Yaml)>, key: string, items: seq<(string, Yaml)>, b: seq<(string, Yaml)>)
    ensures Flatten(a + [(key, Mapping(items))] + b) == Flatten(a) + Values(items) + Flatten(b)
  {
    FlattenAppend(a + [(key, Mapping(items))], b);
    FlattenAppend(a, [(key, Mapping(items))]);
    assert [(key, Mapping(items))][..0] == [];
  }

  /** A category whose value is not a mapping is skipped and does not stop the others. */
  lemma FlattenSkipsOtherCategory(a: seq<(string, Yaml)>, key: string, entry: Yaml, b: seq<(string, Yaml)>)
    requires !entry.Mapping?
    ensures Flatten(a + [(key, entry)] + b) == Flatten(a + b)
  {
    var one := [(key, entry)];
    assert one[..0] == [];
    assert Flatten(one) == Flatten([]) + Contribution(entry) == [];
    FlattenAppend(a + one, b);
    FlattenAppend(a, one);
    FlattenAppend(a, b);
  }

  /** The `for key, entry in skip_dict.items()` loop that extends `patterns`. */
  method CollectPatterns(categories: seq<(string, Yaml)>) returns (patterns: seq<Yaml>)
    ensures patterns == Flatten(categories)
  {
    patterns := [];
    var i := 0;
    while i < |categories|
      invariant 0 <= i <= |categories|
      invariant patterns == Flatten(categories[..i])
    {
      assert categories[..i + 1][..i] == categories[..i];
      var (_, entry) := categories[i];
      if entry.Mapping? {
        patterns := patterns + Values(entry.items);
      }
      i := i + 1;
    }
    assert categories[..i] == categories;
  }

  /**
   * The value stored under `key` in a mapping's items, if any. Of a key
   * written twice the later value counts, as in the dict the YAML loader builds.
   */
  function Lookup(items: seq<(string, Yaml)>, key: string): (v: Option<Yaml>)
    ensures v.Some? <==> exists i :: 0 <= i < |items| && items[i].0 == key
    ensures v.Some? ==> exists i :: 0 <= i < |items| && items[i] == (key, v.value)
  {
    if items == [] then None
    else if items[|items| - 1].0 == key then Some(items[|items| - 1].1)
    else
      var v := Lookup(items[..|items| - 1], key);
      assert forall i :: 0 <= i < |items| - 1 ==> items[i] == items[..|items| - 1][i];
      v
  }

  /** The value found is the one under the last occurrence of `key`. */
  lemma {:induction false} LookupLatest(items: seq<(string, Yaml)>, key: string)
    requires Lookup(items, key).Some?
    ensures exists i ::
      (0 <= i < |items| && items[i] == (key, Lookup(items, key).value) && forall j :: i < j < |items| ==> items[j].0 != key)
  {
    var n := |items| - 1;
    if items[n].0 != key {
      var prefix := items[..n];
      LookupLatest(prefix, key);
      var i :| 0 <= i < n && prefix[i] == (key, Lookup(prefix, key).value) &&
        forall j :: i < j < n ==> prefix[j].0 != key;
      assert items[i] == prefix[i];
      forall j | i < j < |items| ensures items[j].0 != key {
        if j < n {
          assert items[j] == prefix[j];
        }
      }
    }
  }

  // ---------------------------------------------------------------------------
  // The dict the YAML loader builds

  /** The keys of a mapping's items. */
  function Keys(items: seq<(string, Yaml)>): set<string>
  {
    if items == [] then {} else Keys(items[..|items| - 1]) + {items[|items| - 1].0}
  }

  /** No key is written twice. */
  predicate DistinctKeys(items: seq<(string, Yaml)>)
  {
    items == [] ||
    (DistinctKeys(items[..|items| - 1]) && items[|items| - 1].0 !in Keys(items[..|items| - 1]))
  }

  /** One more item adds its key. */
  lemma KeysSnoc(items: seq<(string, Yaml)>, item: (string, Yaml))
    ensures Keys(items + [item]) == Keys(items) + {item.0}
    ensures DistinctKeys(items + [item]) <==> DistinctKeys(items) && item.0 !in Keys(items)
  {
    assert (items + [item])[..|items|] == items;
  }

  /** A key is found exactly when it is one of the keys. */
  lemma {:induction false} LookupKeys(items: seq<(string, Yaml)>, key: string)
    ensures Lookup(items, key).Some? <==> key in Keys(items)
  {
    if items != [] {
      LookupKeys(items[..|items| - 1], key);
    }
  }

  /**
   * `d[key] = value` on a dict held as its items: an entry already holding
   * `key` takes the new value where it stands, otherwise a new entry goes last.
   */
  function Put(d: seq<(string, Yaml)>, key: string, value: Yaml): (r: seq<(string, Yaml)>)
    ensures Keys(r) == Keys(d) + {key}
    ensures |r| == if key in Keys(d) then |d| else |d| + 1
    ensures DistinctKeys(d) ==> DistinctKeys(r)
  {
    if key !in Keys(d) then
      KeysSnoc(d, (key, value));
      d + [(key, value)]
    else
      var prefix, last := d[..|d| - 1], d[|d| - 1];
      assert d == prefix + [last];
      KeysSnoc(prefix, last);
      if last.0 == key then
        KeysSnoc(prefix, (key, value));
        prefix + [(key, value)]
      else
        var r := Put(prefix, key, value);
        KeysSnoc(r, last);
        r + [last]
  }

  /** After `d[key] = value`, `key` holds `value` and every other key what it held before. */
  lemma {:induction false} PutLookup(d: seq<(string, Yaml)>, key: string, value: Yaml, x: string)
    ensures Lookup(Put(d, key, value), x) == if x == key then Some(value) else Lookup(d, x)
  {
    if key !in Keys(d) {
      assert (d + [(key, value)])[..|d|] == d;
    } else {
      var prefix, last := d[..|d| - 1], d[|d| - 1];
      KeysSnoc(prefix, last);
      assert d == prefix + [last];
      if last.0 == key {
        assert (prefix + [(key, value)])[..|prefix|] == prefix;
      } else {
        var r := Put(prefix, key, value);
        assert (r + [last])[..|r|] == r;
        PutLookup(prefix, key, value, x);
      }
    }
  }

  /**
   * The dict `yaml.safe_load` builds from a mapping's items: one entry per key,
   * at the position where the key first appears, holding its last value.
   */
  function Dict(items: seq<(string, Yaml)>): (d: seq<(string, Yaml)>)
    ensures Keys(d) == Keys(items)
    ensures DistinctKeys(d)
    ensures |d| <= |items|
  {
    if items == [] then []
    else
      var prefix, last := items[..|items| - 1], items[|items| - 1];
      assert items == prefix + [last];
      KeysSnoc(prefix, last);
      Put(Dict(prefix), last.0, last.1)
  }

  /** Every key holds, in the dict, the value of its last occurrence in the document. */
  lemma {:induction false} DictLookup(items: seq<(string, Yaml)>, key: string)
    ensures Lookup(Dict(items), key) == Lookup(items, key)
  {
    if items != [] {
      var prefix, last := items[..|items| - 1], items[|items| - 1];
      DictLookup(prefix, key);
      PutLookup(Dict(prefix), last.0, last.1, key);
    }
  }

  /** Items without a repeated key are the dict as they stand. */
  lemma {:induction false} DictOfDistinct(items: seq<(string, Yaml)>)
    requires DistinctKeys(items)
    ensures Dict(items) == items
  {
    if items != [] {
      var prefix, last := items[..|items| - 1], items[|items| - 1];
      assert items == prefix + [last];
      DictOfDistinct(prefix);
    }
  }

  /** In a dict with distinct keys, looking up an entry's key finds that entry's value. */
  lemma {:induction false} LookupDistinct(d: seq<(string, Yaml)>, i: nat)
    requires DistinctKeys(d) && i < |d|
    ensures Lookup(d, d[i].0) == Some(d[i].1)
  {
    var prefix := d[..|d| - 1];
    if i < |d| - 1 {
      assert d[i] == prefix[i];
      LookupKeys(prefix, d[i].0);
      LookupDistinct(prefix, i);
    }
  }

  /**
   * A value of `entry.values()` is the one its key was last given: a pattern
   * name written twice in one category keeps only its later pattern.
   */
  lemma ValueIsLatest(items: seq<(string, Yaml)>, v: Yaml)
    requires v in Values(items)
    ensures exists key :: key in Keys(items) && Lookup(items, key) == Some(v)
  {
    var d := Dict(items);
    var i :| 0 <= i < |d| && d[i].1 == v;
    LookupDistinct(d, i);
    DictLookup(items, d[i].0);
    LookupKeys(items, d[i].0);
  }

  /** The value a key was last given is in `entry.values()`. */
  lemma LatestIsValue(items: seq<(string, Yaml)>, key: string)
    requires key in Keys(items)
    ensures Lookup(items, key).Some? && Lookup(items, key).value in Values(items)
  {
    var d := Dict(items);
    LookupKeys(items, key);
    DictLookup(items, key);
    var i :| 0 <= i < |d| && d[i] == (key, Lookup(items, key).value);
    assert Values(items)[i] == d[i].1;
  }

  /** Without a repeated key, `entry.values()` lists every item's value, in document order. */
  lemma ValuesOfDistinct(items: seq<(string, Yaml)>)
    requires DistinctKeys(items)
    ensures |Values(items)| == |items| && forall i :: 0 <= i < |items| ==> Values(items)[i] == items[i].1
  {
    DictOfDistinct(items);
  }

  /** `system: {join: joined, join: left}` contributes only `left`. */
  lemma RepeatedNameKeepsLast()
    ensures Values([("join", Str("joined")), ("join", Str("left"))]) == [Str("left")]
  {
    var first, second := ("join", Str("joined")), ("join", Str("left"));
    assert [first, second][..1] == [first];
    assert [first][..0] == [];
    assert Dict([first]) == [first];
    assert Put([first], "join", Str("left")) == [second];
  }

  /** `config_yaml.get("skip_messages", {})`, then `.items()` on the dict it holds. */
  function SkipMessages(doc: Yaml): Result<seq<(string, Yaml)>, CleanError>
  {
    match doc
    case Mapping(items) =>
      (match Lookup(items, "skip_messages")
       case None => Ok([])
       case Some(Mapping(categories)) => Ok(Dict(categories))
       case Some(_) => Err(UnexpectedFailure))
    case _ => Err(UnexpectedFailure)
  }

  /** `[re.escape(p) for p in patterns]`: the literal texts, or a failure on a value that is not a string. */
  function EscapeAll(patterns: seq<Yaml>): (r: Option<seq<string>>)
    ensures r.Some? <==> forall i :: 0 <= i < |patterns| ==> patterns[i].Str?
    ensures r.Some? ==>
      (|r.value| == |patterns| && forall i :: 0 <= i < |patterns| ==> r.value[i] == patterns[i].text)
  {
    if patterns == [] then Some([])
    else
      match patterns[0]
      case Str(text) =>
        (match EscapeAll(patterns[1..])
         case Some(rest) => Some([text] + rest)
         case None => None)
      case _ => None
  }

  /** The literal patterns the configuration document asks to skip. */
  function Literals(doc: Yaml): Result<seq<string>, CleanError>
  {
    match SkipMessages(doc)
    case Err(e) => Err(e)
    case Ok(categories) =>
      var patterns := Flatten(categories);
      if patterns == [] then Ok([])
      else
        match EscapeAll(patterns)
        case Some(literals) => Ok(literals)
        case None => Err(UnexpectedFailure)
  }

  // ---------------------------------------------------------------------------
  // Literal, case-insensitive matching

  /** ASCII lower-casing, standing for the regex engine's case-insensitive comparison. */
  function Lower(c: char): char
  {
    if 'A' <= c <= 'Z' then (c as int - 'A' as int + 'a' as int) as char else c
  }

  /** Every character lower-cased. */
  function Fold(s: string): string
  {
    seq(|s|, i requires 0 <= i < |s| => Lower(s[i]))
  }

  /** `literal` occurs in `text` starting at position `i`. */
  predicate OccursAt(text: string, literal: string, i: nat)
  {
    i + |literal| <= |text| && text[i..i + |literal|] == literal
  }

  /** `literal` occurs somewhere in `text` (an unanchored search). */
  predicate ContainsLiteral(text: string, literal: string)
  {
    exists i: nat :: i <= |text| && OccursAt(text, literal, i)
  }

  /**
   * The alternatives of the escaped pattern `(?:p1|p2|...)`. Joining no
   * patterns gives `(?:)`, whose one alternative is empty.
   */
  function Alternatives(literals: seq<string>): seq<string>
  {
    if literals == [] then [""] else literals
  }

  /** The escaped pattern is found in `message`, ignoring case. */
  predicate MatchesAny(message: string, literals: seq<string>)
  {
    exists k :: 0 <= k < |Alternatives(literals)| && ContainsLiteral(Fold(message), Fold(Alternatives(literals)[k]))
  }

  /** `str.contains(regex, case=False, na=False)`: a missing message never matches. */
  predicate MessageMatches(row: Row, literals: seq<string>)
  {
    row.message.Some? && MatchesAny(row.message.value, literals)
  }

  /** The mask `~mask` that selects the surviving rows. */
  function Keep(literals: seq<string>): Row -> bool
  {
    row => !MessageMatches(row, literals)
  }

  // ---------------------------------------------------------------------------
  // The cleaner

  /** `clean_dataframe` as a function of the input rows and of what reading the configuration produced. */
  function Clean(rows: seq<Row>, source: ConfigSource): (r: Result<seq<Row>, CleanError>)
    ensures source == NotFound ==> r == Err(ConfigNotFound)
    ensures source == Malformed ==> r == Err(ConfigMalformed)
    ensures source == Unreadable ==> r == Err(UnexpectedFailure)
    ensures r.Err? <==> !source.Found? || Literals(source.doc).Err?
  {
    match source
    case NotFound => Err(ConfigNotFound)
    case Malformed => Err(ConfigMalformed)
    case Unreadable => Err(UnexpectedFailure)
    case Found(doc) =>
      match Literals(doc)
      case Err(e) => Err(e)
      case Ok(literals) =>
        if literals == [] then Ok(Complete(rows))
        else Ok(Filter(Complete(rows), Keep(literals)))
  }

  /**
   * `clean_dataframe` step by step: copy, drop incomplete rows in place,
   * read the configuration, collect the patterns, select. It has no
   * `modifies` clause, so the caller's table is left as it was.
   */
  method CleanDataframe(df: Frame, source: ConfigSource) returns (r: Result<seq<Row>, CleanError>)
    ensures r == Clean(df.rows, source)
  {
    var work := df.Copy();
    work.DropNa();
    var doc;
    match source {
      case NotFound => return Err(ConfigNotFound);
      case Malformed => return Err(ConfigMalformed);
      case Unreadable => return Err(UnexpectedFailure);
      case Found(d) => doc := d;
    }
    var categories;
    match SkipMessages(doc) {
      case Err(e) => return Err(e);
      case Ok(cs) => categories := cs;
    }
    var patterns := CollectPatterns(categories);
    if patterns == [] {
      return Ok(work.rows);
    }
    match EscapeAll(patterns) {
      case None => return Err(UnexpectedFailure);
      case Some(literals) =>
        return Ok(Filter(work.rows, Keep(literals)));
    }
  }

  // ---------------------------------------------------------------------------
  // Properties of the cleaner

  /** No surviving row has a missing field. */
  lemma CleanOutputComplete(rows: seq<Row>, source: ConfigSource)
    requires Clean(rows, source).Ok?
    ensures forall i :: 0 <= i < |Clean(rows, source).value| ==> IsComplete(Clean(rows, source).value[i])
  {
    var literals := Literals(source.doc).value;
    if literals != [] {
      FilterMembership(Complete(rows), Keep(literals));
    }
  }

  /** The survivors are the input rows with some rows deleted, in their original order. */
  lemma CleanIsSubsequence(rows: seq<Row>, source: ConfigSource)
    requires Clean(rows, source).Ok?
    ensures IsSubsequence(Clean(rows, source).value, rows)
  {
    FilterIsSubsequence(rows, IsComplete);
    var literals := Literals(source.doc).value;
    if literals != [] {
      FilterIsSubsequence(Complete(rows), Keep(literals));
      SubsequenceTransitive(Clean(rows, source).value, Complete(rows), rows);
    }
  }

  /**
   * A row survives, with all its copies, exactly when it is complete and its
   * message contains none of the literal patterns, ignoring case; otherwise
   * no copy of it survives. With no patterns this is the completeness filter.
   */
  lemma CleanKeepsExactlyUnmatched(rows: seq<Row>, doc: Yaml, literals: seq<string>)
    requires Literals(doc) == Ok(literals)
    ensures Clean(rows, Found(doc)).Ok?
    ensures forall row ::
              multiset(Clean(rows, Found(doc)).value)[row] ==
              (if IsComplete(row) && (literals == [] || !MessageMatches(row, literals)) then multiset(rows)[row] else 0)
  {
    FilterMultiplicity(rows, IsComplete);
    if literals != [] {
      FilterMultiplicity(Complete(rows), Keep(literals));
    }
  }

  /**
   * The early return for an empty pattern list matters: the mask built from no
   * patterns, `(?:)`, matches every message, so without it every row would go.
   */
  lemma ShortCircuitNeeded(rows: seq<Row>)
    ensures Filter(Complete(rows), Keep([])) == []
  {
    var c := Complete(rows);
    forall i | 0 <= i < |c| ensures !Keep([])(c[i]) {
      assert OccursAt(Fold(c[i].message.value), Fold(Alternatives([])[0]), 0);
    }
    FilterNonePass(c, Keep([]));
  }

  /**
   * When `skip_messages` yields no pattern (it is absent or empty, or none of
   * its categories is a non-empty mapping) exactly the complete rows are left, in order.
   */
  lemma CleanWithoutPatterns(rows: seq<Row>, doc: Yaml)
    requires SkipMessages(doc).Ok? && Flatten(SkipMessages(doc).value) == []
    ensures Clean(rows, Found(doc)) == Ok(Complete(rows))
  {
  }

  /** Cleaning a cleaned table with the same configuration gives it back unchanged. */
  lemma CleanIdempotent(rows: seq<Row>, source: ConfigSource)
    requires Clean(rows, source).Ok?
    ensures Clean(Clean(rows, source).value, source) == Clean(rows, source)
  {
    var out := Clean(rows, source).value;
    var literals := Literals(source.doc).value;
    CleanOutputComplete(rows, source);
    FilterAllPass(out, IsComplete);
    if literals != [] {
      FilterAllPass(out, Keep(literals));
    }
  }

  /** Metacharacters are escaped: `a.b` matches only the three characters `a.b`. */
  lemma PatternIsLiteral()
    ensures !MatchesAny("axb", ["a.b"])
    ensures MatchesAny("see A.B here", ["a.b"])
  {
    assert Alternatives(["a.b"]) == ["a.b"];
    assert Fold("axb")[1] != Fold("a.b")[1];
    assert OccursAt(Fold("see A.B here"), Fold("a.b"), 4);
    assert ContainsLiteral(Fold("see A.B here"), Fold(["a.b"][0]));
  }

  /** Matching ignores case: `error` matches a message containing `ERROR`. */
  lemma MatchIgnoresCase()
    ensures MatchesAny("AN ERROR OCCURRED", ["error"])
  {
    assert Alternatives(["error"]) == ["error"];
    assert OccursAt(Fold("AN ERROR OCCURRED"), Fold("error"), 3);
    assert ContainsLiteral(Fold("AN ERROR OCCURRED"), Fold(["error"][0]));
  }

  /** An empty pattern occurs in every message, so every complete row is dropped. */
  lemma EmptyPatternDropsAll(rows: seq<Row>, doc: Yaml)
    requires Literals(doc).Ok? && "" in Literals(doc).value
    ensures Clean(rows, Found(doc)) == Ok([])
  {
    var literals := Literals(doc).value;
    var k :| 0 <= k < |literals| && literals[k] == "";
    assert Alternatives(literals) == literals;
    forall row | IsComplete(row) ensures MessageMatches(row, literals) {
      assert OccursAt(Fold(row.message.value), Fold(literals[k]), 0);
    }
    CleanKeepsExactlyUnmatched(rows, doc, literals);
    var out := Clean(rows, Found(doc)).value;
    assert multiset(out) == multiset{};
  }

  /**
   * The patterns are the texts of the collected values, in order; the list
   * is refused exactly when one of the values is not a string.
   */
  lemma LiteralsAreTexts(doc: Yaml, categories: seq<(string, Yaml)>)
    requires SkipMessages(doc) == Ok(categories)
    ensures Literals(doc).Ok? <==> forall y :: y in Flatten(categories) ==> y.Str?
    ensures Literals(doc).Ok? ==>
      && |Literals(doc).value| == |Flatten(categories)|
      && forall i :: 0 <= i < |Flatten(categories)| ==> Literals(doc).value[i] == Flatten(categories)[i].text
  {
    var patterns := Flatten(categories);
    var r := EscapeAll(patterns);
    assert (forall y :: y in patterns ==> y.Str?) <==> (forall i :: 0 <= i < |patterns| ==> patterns[i].Str?);
  }

  /**
   * A configuration with one category of system messages and one malformed
   * category: the malformed one is skipped, `Joined` is matched in any case,
   * and the incomplete row goes too.
   */
  lemma CleanExample()
    ensures var doc := Mapping([("skip_messages", Mapping([
                ("system", Mapping([("join", Str("joined"))])),
                ("notes", Str("not a mapping"))]))]);
      var kept := Row(Some(60), Some("Ana"), Some("hola"));
      var rows := [Row(Some(0), Some("Ana"), Some("Luis JOINED the group")), kept, Row(Some(120), None, Some("hi"))];
      Clean(rows, Found(doc)) == Ok([kept])
  {
    var doc := Mapping([("skip_messages", Mapping([
      ("system", Mapping([("join", Str("joined"))])),
      ("notes", Str("not a mapping"))]))]);
    ExampleLiterals(doc);
    ExampleRows(Row(Some(0), Some("Ana"), Some("Luis JOINED the group")),
      Row(Some(60), Some("Ana"), Some("hola")), Row(Some(120), None, Some("hi")));
  }

  lemma ExampleLiterals(doc: Yaml)
    requires doc == Mapping([("skip_messages", Mapping([
      ("system", Mapping([("join", Str("joined"))])),
      ("notes", Str("not a mapping"))]))])
    ensures Literals(doc) == Ok(["joined"])
  {
    var system := ("system", Mapping([("join", Str("joined"))]));
    var notes := ("notes", Str("not a mapping"));
    var join := ("join", Str("joined"));
    assert [system, notes][..1] == [system] && [system][..0] == [] && [join][..0] == [];
    KeysSnoc([system], notes);
    assert [system] + [notes] == [system, notes];
    DictOfDistinct([system, notes]);
    assert SkipMessages(doc) == Ok([system, notes]);
    DictOfDistinct([join]);
    assert Values([join]) == [Str("joined")];
    assert Flatten([system]) == [Str("joined")];
    assert Flatten([system, notes]) == Flatten([system]) + Contribution(notes.1);
    var escaped := EscapeAll([Str("joined")]);
    assert [Str("joined")][0].Str? && escaped.Some?;
    assert |escaped.value| == 1 && escaped.value[0] == "joined";
    assert escaped.value == ["joined"];
  }

  lemma ExampleRows(joined: Row, kept: Row, partial: Row)
    requires joined == Row(Some(0), Some("Ana"), Some("Luis JOINED the group"))
    requires kept == Row(Some(60), Some("Ana"), Some("hola"))
    requires partial == Row(Some(120), None, Some("hi"))
    ensures Filter(Complete([joined, kept, partial]), Keep(["joined"])) == [kept]
  {
    var rows := [joined, kept, partial];
    assert rows[..2] == [joined, kept] && rows[..2][..1] == [joined] && [joined][..0] == [];
    assert Filter([joined], IsComplete) == [joined];
    assert Filter([joined, kept], IsComplete) == [joined, kept];
    assert Complete(rows) == Filter([joined, kept], IsComplete);
    ExampleMatches(joined, kept);
    assert [joined, kept][..1] == [joined];
  }

  lemma ExampleMatches(joined: Row, kept: Row)
    requires joined == Row(Some(0), Some("Ana"), Some("Luis JOINED the group"))
    requires kept == Row(Some(60), Some("Ana"), Some("hola"))
    ensures MessageMatches(joined, ["joined"]) && !MessageMatches(kept, ["joined"])
  {
    assert Alternatives(["joined"]) == ["joined"];
    assert OccursAt(Fold("Luis JOINED the group"), Fold("joined"), 5);
    assert ContainsLiteral(Fold("Luis JOINED the group"), Fold(["joined"][0]));
    assert |Fold("joined")| > |Fold("hola")|;
  }

}
