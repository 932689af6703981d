# Chat analysis core, modelled in Dafny

This project models the two record transformations at the heart of a WhatsApp-style
chat analyser and proves what they promise.

* **The message cleaner** is `clean_dataframe` in `app/dfpandas/cleaning.py`. It works on a
  copy of the chat table, drops every row with a missing field, and reads the
  `skip_messages` section of `config.yaml`. That section maps categories to mappings of
  pattern texts, and the cleaner flattens it into one ordered pattern list. If the
  list is empty it returns the complete rows. Otherwise it drops every row whose
  message contains one of the patterns, matched literally and ignoring case.
  A missing configuration file and an unparsable one are distinct errors. Any other
  failure inside the function is re-raised unchanged.
* **The session-start analysis** is `analizar_inicios` in `app/dfpandas/init_conversation.py`.
  It sorts the messages by `datetime` and takes each message's gap from the previous one;
  the first message's gap is 0. A message starts a conversation when its gap is strictly
  greater than `umbral_minutos` minutes (default 60). It returns the starting messages
  (`inicios`) and a table. The table gives, for each user who started a conversation,
  how many they started (`Inicia`) and that number's share of all starts (`% Inicios`),
  largest count first.

Files:

* `wrappers.dfy`: `Option` and `Result`.
* `sequences.dfy`: generic pieces shared by both transformations. These are
  order-preserving selection (`Filter`), subsequences, and an insertion sort by an
  integer key, with their lemmas: multiplicities, membership, order, and sortedness.
* `cleaning.dfy`: the cleaner. The pandas table is a `Frame` class, because
  `dropna(inplace=True)` updates it in place. The `for` loop that collects patterns is a
  method with a loop invariant. Both are proved against specification functions
  (`Complete`, `Flatten`). `Clean` is the whole cleaner as a function, and
  `CleanDataframe` is the step-by-step method, proved equal to it.
* `conversation.dfy`: the analysis as functions over sequences, because the source is a
  pipeline of vectorised expressions with no loops.

Conventions of the model:

* A configuration read is a value: `Found(doc)`, `NotFound`, `Malformed` or `Unreadable`.
  `Unreadable` covers every other failure to read the file, such as a missing permission or
  text that is not UTF-8.
* A YAML mapping holds its items as written, so a key may repeat. `Dict` is the dict the
  loader builds from them: one entry per key, at the key's first position, holding its
  last value. `skip_messages` and every category are read through it.
* A row's fields are `Option`s; `None` stands for a missing value.
* Timestamps are integer seconds, so the threshold is `umbral_minutos * 60`.
* Proportions are exact `real`s.
* Case-insensitive comparison is ASCII lower-casing (`Fold`).
* A search for an escaped pattern is a literal substring search (`ContainsLiteral`).
* The mask's regular expression is an alternation of the patterns (`Alternatives`). With no
  patterns it is `(?:)`, which matches every message, so it stands for the one empty literal.

## Model

| member | source | states |
|---|---|---|
| Cleaning.Frame.Copy | app/dfpandas/cleaning.py:38 | `df.copy()`: a fresh table holding the same rows. |
| Cleaning.Frame.DropNa | app/dfpandas/cleaning.py:41-42 | `dropna(inplace=True)`: the table's new rows are exactly its old complete rows, in order. The loop invariant ties the rows kept so far to `Filter` on the prefix. |
| Cleaning.Complete | app/dfpandas/cleaning.py:42 | After `dropna`, no row has a missing field. |
| Cleaning.CollectPatterns | app/dfpandas/cleaning.py:59-64 | The `for` loop over `skip_dict.items()` builds exactly `Flatten(categories)`: the in-order concatenation of the values of the categories that are mappings. |
| Cleaning.FlattenMappingCategory | app/dfpandas/cleaning.py:60-62 | A category whose value is a mapping contributes all of `entry.values()`, at its position in the list. |
| Cleaning.FlattenSkipsOtherCategory | app/dfpandas/cleaning.py:60-64 | A category whose value is not a mapping contributes nothing and does not stop the loop. The list is the same as if the category were absent. |
| Cleaning.FlattenAppend | app/dfpandas/cleaning.py:59-64 | The pattern list of two groups of categories is the concatenation of their lists. |
| Cleaning.Put | app/dfpandas/cleaning.py:48 | A dict assignment made while loading adds the key once: the keys grow by that key, the length grows only for a new key, and distinct keys stay distinct. |
| Cleaning.PutLookup | app/dfpandas/cleaning.py:48 | After the assignment the key holds the new value, and every other key holds what it held before. |
| Cleaning.Dict | app/dfpandas/cleaning.py:48 | The loaded dict has the document's keys, each exactly once, and no more entries than the document has items. |
| Cleaning.DictLookup | app/dfpandas/cleaning.py:48 | Every key holds, in the loaded dict, the value of its last occurrence in the document. |
| Cleaning.DictOfDistinct | app/dfpandas/cleaning.py:48 | A mapping without a repeated key loads as written, in document order. |
| Cleaning.ValueIsLatest | app/dfpandas/cleaning.py:62 | Every value `entry.values()` yields is the value its key was last given. |
| Cleaning.LatestIsValue | app/dfpandas/cleaning.py:62 | The last value of every key is among those `entry.values()` yields. |
| Cleaning.ValuesOfDistinct | app/dfpandas/cleaning.py:62 | Without a repeated key, `entry.values()` yields every item's value, in document order. |
| Cleaning.RepeatedNameKeepsLast | app/dfpandas/cleaning.py:48-62 | For `{join: joined, join: left}`, `entry.values()` yields only `left`. |
| Cleaning.Lookup | app/dfpandas/cleaning.py:58 | `config_yaml.get(...)` finds a value exactly when the key is present, and the value found is stored under that key. |
| Cleaning.LookupLatest | app/dfpandas/cleaning.py:58 | Of a key written more than once, the value found is the one under its last occurrence, as in the dict the YAML loader builds. |
| Cleaning.EscapeAll | app/dfpandas/cleaning.py:70 | `[re.escape(p) for p in patterns]` succeeds exactly when every pattern is a string, and then yields the pattern texts in order. |
| Cleaning.LiteralsAreTexts | app/dfpandas/cleaning.py:57-70 | Given the `skip_messages` categories, the literal patterns exist exactly when every collected value is a string, and they are those values' texts in order. |
| Cleaning.Clean | app/dfpandas/cleaning.py:14-82 | A missing file gives the not-found error. An unparsable file gives the parse error. Any other read failure gives the re-raised unexpected error. An error occurs exactly when the configuration cannot be read or parsed, or when reading the patterns fails. |
| Cleaning.CleanDataframe | app/dfpandas/cleaning.py:37-78 | The step-by-step cleaner returns exactly `Clean` of the caller's rows. It has no `modifies` clause, so the caller's table is not changed. |
| Cleaning.CleanOutputComplete | app/dfpandas/cleaning.py:42 | No surviving row has a missing field. |
| Cleaning.CleanIsSubsequence | app/dfpandas/cleaning.py:42-75 | The output is the input with some rows deleted, in the original order. |
| Cleaning.CleanKeepsExactlyUnmatched | app/dfpandas/cleaning.py:41-75 | A row survives, with every copy of it, if and only if it is complete and either no pattern was collected or its message contains no pattern, ignoring case. Otherwise no copy survives. |
| Cleaning.ShortCircuitNeeded | app/dfpandas/cleaning.py:66-75 | The early return for an empty pattern list matters. Without it, the mask built from no patterns, `(?:)`, would match every message and every row would be dropped. |
| Cleaning.CleanWithoutPatterns | app/dfpandas/cleaning.py:58-68 | When `skip_messages` yields no pattern, the complete rows are returned exactly, in order. That happens when it is absent or empty, or when it holds only empty mappings and non-mapping entries. |
| Cleaning.CleanIdempotent | app/dfpandas/cleaning.py:42-75 | Cleaning a cleaned table with the same configuration returns it unchanged. |
| Cleaning.PatternIsLiteral | app/dfpandas/cleaning.py:70-71 | Escaped patterns match literally: `a.b` does not match `axb`, but does match `A.B`. |
| Cleaning.MatchIgnoresCase | app/dfpandas/cleaning.py:74 | `case=False`: the pattern `error` matches a message containing `ERROR`. |
| Cleaning.EmptyPatternDropsAll | app/dfpandas/cleaning.py:70-75 | An empty pattern occurs in every message, so every row is dropped. |
| Cleaning.CleanExample | app/dfpandas/cleaning.py:41-75 | One worked configuration: a non-mapping category is skipped, `JOINED` is matched by `joined`, and an incomplete row is dropped. Exactly one row remains. |
| Conversation.SortByDatetime | app/dfpandas/init_conversation.py:5 | `sort_values(by='datetime')`: a permutation of the messages (equal multisets), non-decreasing in `datetime`. |
| Conversation.SortByDatetimeInOrder | app/dfpandas/init_conversation.py:5 | Messages whose timestamps already strictly increase are returned unchanged. |
| Conversation.Annotate | app/dfpandas/init_conversation.py:5-9 | Each annotated message has `new_convo` exactly when its `time_diff` is strictly greater than the threshold. On messages sorted by time every gap is non-negative. The first message has gap 0, so it is never flagged when the threshold is not negative. |
| Conversation.GapsTelescope | app/dfpandas/init_conversation.py:6 | The gaps invert the `diff`: the first k+1 gaps add up to `dt[k] - dt[0]`. |
| Conversation.InitiationsExactlyFlagged | app/dfpandas/init_conversation.py:12 | `df[df['new_convo']]` is a subsequence of the annotated messages. It holds every copy of each flagged message and nothing else. |
| Conversation.InitiatingMessages | app/dfpandas/init_conversation.py:5-12 | The initiating messages are the sorted, annotated messages with the unflagged ones deleted. They form a subsequence of them and hold every flagged message, each as often as it occurs, and no other. Each has a gap above the threshold, and they are in time order. |
| Conversation.TallyUsersCorrect | app/dfpandas/init_conversation.py:15 | The unordered count has one entry per sender. Each entry equals that sender's number of messages and is at least 1, and the counts add up to the number of messages. |
| Conversation.ValueCounts | app/dfpandas/init_conversation.py:15-16 | `value_counts()`: one entry per initiating user, holding that user's number of initiations (at least 1). It is ordered by non-increasing count, and `conteo.sum()` equals the number of initiating messages. |
| Conversation.Proportions | app/dfpandas/init_conversation.py:17-22 | `conteo / total`: row i carries the user, the count and count/total. No division happens for an empty count. |
| Conversation.FractionsAddUp | app/dfpandas/init_conversation.py:16-17 | The shares add up to the sum of the counts over the total. |
| Conversation.SharesSumToOne | app/dfpandas/init_conversation.py:16-17 | When the counts add up to the total, the shares add up to exactly 1. |
| Conversation.ShareBounds | app/dfpandas/init_conversation.py:17 | A count between 1 and the total has a share in (0, 1]. |
| Conversation.CountPropUsers | app/dfpandas/init_conversation.py:15-22 | No user has two rows, and every initiating user has a row. The table is empty exactly when there are no initiations. |
| Conversation.CountPropOnlyInitiators | app/dfpandas/init_conversation.py:15-22 | Every user in the table started at least one conversation. |
| Conversation.CountPropCounts | app/dfpandas/init_conversation.py:15-22 | `Inicia` is the user's number of initiations, at least 1. Rows are in non-increasing count order. |
| Conversation.CountPropShares | app/dfpandas/init_conversation.py:16-21 | `% Inicios` is `Inicia` over the number of initiations and lies in (0, 1]. The shares add up to exactly 1 when the table is not empty. |
| Conversation.CountPropCorrect | app/dfpandas/init_conversation.py:14-22 | The table meets all of `IsInitiationTable`. |
| Conversation.AnalizarInicios | app/dfpandas/init_conversation.py:4-23 | The messages returned are exactly the flagged ones among the sorted, annotated messages: a subsequence that holds each flagged message as often as it occurs. Their gaps exceed `umbral_minutos * 60` seconds, and they are in time order. The table is an `IsInitiationTable` for them: one row per initiating user, counts equal to the initiations, largest first, shares in (0, 1] adding up to 1, and empty exactly when no message starts a conversation. |
| Conversation.DefaultThresholdExample | app/dfpandas/init_conversation.py:4-23 | With the default 60 minutes, messages at 0, 10, 90 and 95 minutes flag only the one at 90 minutes. Its sender gets `Inicia` 1 and share 1. |

## Left out

- Logging is not modelled. The `logger` calls and the log-and-re-raise wrapper (`app/dfpandas/cleaning.py:80-82`) are side effects only. The model keeps their effect: errors propagate unchanged.
- File and YAML I/O is not modelled. Opening `config.yaml` and `yaml.safe_load` (`app/dfpandas/cleaning.py:47-48`) become an input value of type `ConfigSource`. The location of the file (`base_dir`, `yaml_path`) is therefore not modelled.
- The exception types are not modelled. Python raises an `AttributeError` or `TypeError` when the document or `skip_messages` is not a mapping, or when a pattern is not a string. All of these become one error, `UnexpectedFailure`.
- YAML values other than strings and mappings are one case, `OtherValue`. Mapping keys are strings.
- The table has exactly the three columns `datetime`, `user` and `message`. `dropna` in the source looks at every column, so other columns are not modelled. A table without a `message` column, which raises `KeyError` at `app/dfpandas/cleaning.py:74`, is not modelled either.
- The regular-expression engine is not modelled. Every pattern is escaped before it is joined (`app/dfpandas/cleaning.py:70-71`), so the alternation is a literal substring search for any of the patterns.
- Case-insensitive matching is ASCII lower-casing only (`Fold`). Python's full Unicode case folding is not modelled.
- pandas index bookkeeping is not modelled. `reset_index(drop=True)` only renumbers rows 0..n-1, and sequences are always numbered that way.
- Floating-point proportions are not modelled. `% Inicios` is an exact `real`, so the shares add up to exactly 1, not just within rounding error.
- Conversation.SortByDatetime: no stability is claimed. `sort_values` is called with its default algorithm, which is not stable. The model's insertion sort fixes some order among equal timestamps. The only lemma about the order of the result, `SortByDatetimeInOrder`, therefore requires strictly increasing timestamps.
- Conversation.ValueCounts: the order among users with equal counts is not stated. It depends on the pandas version.
- Conversation.AnalizarInicios: rows with missing fields are not modelled. The model takes complete messages with integer-second timestamps. The effect of `NaT` timestamps and of fractional `umbral_minutos` is not modelled.
- The caller (`main.py`) is not part of this model. It is the Streamlit page, temporary-file handling and CSV download. It passes the uncleaned table to `analizar_inicios`, so no clean-then-analyse pipeline is modelled.
- The chat-text parser `chat_to_dataframe` and `configure_logging` are not part of this model.
