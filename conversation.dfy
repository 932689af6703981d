/**
 * Session-start analysis (`analizar_inicios`): orders the messages by time,
 * takes each message's gap from the one before, flags the messages whose gap
 * exceeds the threshold as starting a conversation, and tabulates who starts
 * conversations, how often, and what share of all starts that is.
 */
module Conversation {
  import opened Sequences

  /** A complete chat message; `datetime` is a timestamp in seconds. */
  datatype Message = Message(datetime: int, user: string, message: string)

  /** A sorted message with the two columns the analysis adds: `time_diff` and `new_convo`. */
  datatype Annotated = Annotated(row: Message, timeDiff: int, newConvo: bool)

  /** One entry of `value_counts()` on the `user` column. */
  datatype Tally = Tally(user: string, count: nat)

  /** One row of the returned table: `user`, `Inicia` and `% Inicios`. */
  datatype Share = Share(user: string, inicia: nat, fraction: real)

  /** The default of `umbral_minutos`. */
  const DefaultUmbralMinutos: int := 60

  // ---------------------------------------------------------------------------
  // Sorting and gaps

  function Datetime(m: Message): int
  {
    m.datetime
  }

  /** `sort_values(by='datetime')`: a reordering of the messages, ascending in time. */
  function SortByDatetime(df: seq<Message>): (sorted: seq<Message>)
    ensures multiset(sorted) == multiset(df)
    ensures forall i, j :: 0 <= i < j < |sorted| ==> sorted[i].datetime <= sorted[j].datetime
  {
    var r := SortBy(df, Datetime);
    assert forall i, j :: 0 <= i < j < |r| ==> Datetime(r[i]) <= Datetime(r[j]);
    r
  }

  /** `diff().fillna(0)`: the gap from the previous message, zero for the first. */
  function Gap(s: seq<Message>, i: nat): int
    requires i < |s|
  {
    if i == 0 then 0 else s[i].datetime - s[i - 1].datetime
  }

  /**
   * Adds `time_diff` and `new_convo` (gap strictly above `threshold`) to each
   * message. In time order no gap is negative; the first message has gap zero,
   * so it is never flagged when the threshold is not negative.
   */
  function Annotate(s: seq<Message>, threshold: int): (r: seq<Annotated>)
    ensures |r| == |s|
    ensures forall i {:trigger r[i]} :: 0 <= i < |s| ==>
              r[i].row == s[i] && r[i].timeDiff == Gap(s, i) && (r[i].newConvo <==> Gap(s, i) > threshold)
    ensures forall a :: a in r ==> (a.newConvo <==> a.timeDiff > threshold)
    ensures (forall i, j :: 0 <= i < j < |s| ==> s[i].datetime <= s[j].datetime) ==>
              forall i :: 0 <= i < |r| ==> r[i].timeDiff >= 0
    ensures s != [] ==> r[0].timeDiff == 0 && (threshold >= 0 ==> !r[0].newConvo)
  {
    seq(|s|, i requires 0 <= i < |s| => Annotated(s[i], Gap(s, i), Gap(s, i) > threshold))
  }

  function SumGaps(a: seq<Annotated>): int
  {
    if a == [] then 0 else SumGaps(a[..|a| - 1]) + a[|a| - 1].timeDiff
  }

  /** The gaps undo into the timestamps: the first `k + 1` gaps add up to how far message `k` is from message 0. */
  lemma {:induction false} GapsTelescope(s: seq<Message>, threshold: int, k: nat)
    requires k < |s|
    ensures SumGaps(Annotate(s, threshold)[..k + 1]) == s[k].datetime - s[0].datetime
  {
    var a := Annotate(s, threshold);
    var p := a[..k + 1];
    assert p[..k] == a[..k] && p[k] == a[k];
    assert SumGaps(p) == SumGaps(a[..k]) + a[k].timeDiff;
    if k == 0 {
      assert a[k].timeDiff == 0;
    } else {
      GapsTelescope(s, threshold, k - 1);
      assert a[k].timeDiff == s[k].datetime - s[k - 1].datetime;
    }
  }

  // ---------------------------------------------------------------------------
  // Initiating messages

  function RowDatetime(a: Annotated): int
  {
    a.row.datetime
  }

  predicate IsNewConvo(a: Annotated)
  {
    a.newConvo
  }

  /** `df[df['new_convo']]` */
  function Initiations(annotated: seq<Annotated>): seq<Annotated>
  {
    Filter(annotated, IsNewConvo)
  }

  /**
   * The initiating messages are exactly the flagged ones, every copy of each,
   * in the sorted order.
   */
  lemma InitiationsExactlyFlagged(annotated: seq<Annotated>)
    ensures IsSubsequence(Initiations(annotated), annotated)
    ensures forall a :: multiset(Initiations(annotated))[a] == (if a.newConvo then multiset(annotated)[a] else 0)
  {
    FilterIsSubsequence(annotated, IsNewConvo);
    FilterMultiplicity(annotated, IsNewConvo);
  }

  // ---------------------------------------------------------------------------
  // Counting per user

  /** How many of the messages were sent by `user`. */
  function Occurrences(s: seq<Annotated>, user: string): nat
  {
    if s == [] then 0
    else Occurrences(s[..|s| - 1], user) + (if s[|s| - 1].row.user == user then 1 else 0)
  }

  predicate DistinctUsers(t: seq<Tally>)
  {
    forall i, j :: 0 <= i < j < |t| ==> t[i].user != t[j].user
  }

  function SumCounts(t: seq<Tally>): nat
  {
    if t == [] then 0 else t[0].count + SumCounts(t[1..])
  }

  /** The count recorded for `user`, or zero when the user has no entry. */
  function CountFor(t: seq<Tally>, user: string): nat
  {
    if t == [] then 0
    else if t[0].user == user then t[0].count
    else CountFor(t[1..], user)
  }

  lemma {:induction false} CountForFacts(t: seq<Tally>, user: string)
    ensures (forall c :: c in t ==> c.user != user) ==> CountFor(t, user) == 0
    ensures DistinctUsers(t) ==> forall c :: c in t && c.user == user ==> CountFor(t, user) == c.count
  {
    if t != [] {
      CountForFacts(t[1..], user);
      assert t == [t[0]] + t[1..];
      if DistinctUsers(t) {
        forall c | c in t && c.user == user ensures CountFor(t, user) == c.count {
          if c != t[0] {
            var k :| 0 <= k < |t| && t[k] == c;
            assert k > 0 && t[1..][k - 1] == c;
            assert t[0].user != t[k].user;
          }
        }
      }
    }
  }

  /** Records one more message from `user`: increments its entry, or appends a new one. */
  function Bump(t: seq<Tally>, user: string): seq<Tally>
  {
    if t == [] then [Tally(user, 1)]
    else if t[0].user == user then [Tally(user, t[0].count + 1)] + t[1..]
    else [t[0]] + Bump(t[1..], user)
  }

  /** Bumping adds one to the total. */
  lemma {:induction false} BumpSum(t: seq<Tally>, user: string)
    ensures SumCounts(Bump(t, user)) == SumCounts(t) + 1
  {
    if t != [] && t[0].user != user {
      BumpSum(t[1..], user);
      assert Bump(t, user)[1..] == Bump(t[1..], user);
    } else if t != [] {
      assert Bump(t, user)[1..] == t[1..];
    }
  }

  /** Bumping keeps every entry of another user, adds no other user, and leaves an entry for `user`. */
  lemma {:induction false} BumpEntries(t: seq<Tally>, user: string)
    ensures forall c :: c in Bump(t, user) && c.user != user ==> c in t
    ensures forall c :: c in t && c.user != user ==> c in Bump(t, user)
    ensures exists c :: c in Bump(t, user) && c.user == user
  {
    var r := Bump(t, user);
    if t == [] {
      assert r[0] in r;
    } else if t[0].user == user {
      assert r[0] in r;
      assert r == [r[0]] + t[1..];
      assert t == [t[0]] + t[1..];
    } else {
      var rest := Bump(t[1..], user);
      BumpEntries(t[1..], user);
      assert r == [t[0]] + rest;
      assert t == [t[0]] + t[1..];
      var w :| w in rest && w.user == user;
      assert w in r;
    }
  }

  lemma DistinctTail(t: seq<Tally>)
    requires t != [] && DistinctUsers(t)
    ensures DistinctUsers(t[1..])
    ensures forall c :: c in t[1..] ==> c.user != t[0].user
  {
    forall c | c in t[1..] ensures c.user != t[0].user {
      var k :| 0 <= k < |t[1..]| && t[1..][k] == c;
      assert t[k + 1] == c;
    }
  }

  /** Putting an entry for a new user in front keeps one entry per user. */
  lemma DistinctCons(x: Tally, r: seq<Tally>)
    requires DistinctUsers(r) && forall c :: c in r ==> c.user != x.user
    ensures DistinctUsers([x] + r)
  {
    var xr := [x] + r;
    forall i, j | 0 <= i < j < |xr| ensures xr[i].user != xr[j].user {
      assert xr[j] == r[j - 1] && r[j - 1] in r;
      if i > 0 {
        assert xr[i] == r[i - 1];
      }
    }
  }

  /** Bumping keeps one entry per user. */
  lemma {:induction false} BumpDistinct(t: seq<Tally>, user: string)
    requires DistinctUsers(t)
    ensures DistinctUsers(Bump(t, user))
  {
    if t != [] {
      DistinctTail(t);
      if t[0].user == user {
        DistinctCons(Tally(user, t[0].count + 1), t[1..]);
      } else {
        var rest := Bump(t[1..], user);
        BumpDistinct(t[1..], user);
        BumpEntries(t[1..], user);
        DistinctCons(t[0], rest);
      }
    }
  }

  /** After bumping, the entry of `user` counts one more than before. */
  lemma {:induction false} BumpCount(t: seq<Tally>, user: string)
    requires DistinctUsers(t)
    ensures forall c :: c in Bump(t, user) && c.user == user ==> c.count == CountFor(t, user) + 1
  {
    if t != [] {
      DistinctTail(t);
      if t[0].user == user {
        assert forall c :: c in Bump(t, user) && c != Bump(t, user)[0] ==> c in t[1..];
      } else {
        BumpCount(t[1..], user);
        assert forall c :: c in Bump(t, user) && c != t[0] ==> c in Bump(t[1..], user);
      }
    }
  }

  /** `value_counts()` before ordering: one entry per user, in order of first appearance. */
  function TallyUsers(s: seq<Annotated>): seq<Tally>
  {
    if s == [] then [] else Bump(TallyUsers(s[..|s| - 1]), s[|s| - 1].row.user)
  }

  /**
   * The tally has one entry per user who sent a message, that entry counts
   * that user's messages, and the counts add up to the number of messages.
   */
  lemma {:induction false} TallyUsersCorrect(s: seq<Annotated>)
    ensures DistinctUsers(TallyUsers(s))
    ensures SumCounts(TallyUsers(s)) == |s|
    ensures forall c :: c in TallyUsers(s) ==> c.count == Occurrences(s, c.user) && c.count >= 1
    ensures forall m :: m in s ==> exists c :: c in TallyUsers(s) && c.user == m.row.user
  {
    if s != [] {
      var s', x := s[..|s| - 1], s[|s| - 1];
      var t' := TallyUsers(s');
      TallyUsersCorrect(s');
      assert s == s' + [x];
      BumpSum(t', x.row.user);
      BumpDistinct(t', x.row.user);
      TallyCountStep(s', x, t');
      TallyCoverStep(s', x, t');
    }
  }

  /** Counting one more message keeps every entry equal to its user's number of messages. */
  lemma TallyCountStep(s': seq<Annotated>, x: Annotated, t': seq<Tally>)
    requires DistinctUsers(t')
    requires forall c :: c in t' ==> c.count == Occurrences(s', c.user) && c.count >= 1
    requires forall m :: m in s' ==> exists c :: c in t' && c.user == m.row.user
    ensures forall c :: c in Bump(t', x.row.user) ==> c.count == Occurrences(s' + [x], c.user) && c.count >= 1
  {
    var u := x.row.user;
    var t := Bump(t', u);
    BumpEntries(t', u);
    BumpCount(t', u);
    CountForFacts(t', u);
    assert (s' + [x])[..|s'|] == s';
    forall c | c in t ensures c.count == Occurrences(s' + [x], c.user) && c.count >= 1 {
      if c.user == u {
        if Occurrences(s', u) > 0 {
          var m := OccurrenceWitness(s', u);
          var c' :| c' in t' && c'.user == m.row.user;
          assert CountFor(t', u) == Occurrences(s', u);
        } else {
          assert forall c' :: c' in t' ==> c'.user != u;
        }
      }
    }
  }

  /** Counting one more message keeps an entry for every sender. */
  lemma TallyCoverStep(s': seq<Annotated>, x: Annotated, t': seq<Tally>)
    requires forall m :: m in s' ==> exists c :: c in t' && c.user == m.row.user
    ensures forall m :: m in s' + [x] ==> exists c :: c in Bump(t', x.row.user) && c.user == m.row.user
  {
    var u := x.row.user;
    BumpEntries(t', u);
    forall m | m in s' + [x] ensures exists c :: c in Bump(t', u) && c.user == m.row.user {
      if m != x {
        assert m in s';
        var c' :| c' in t' && c'.user == m.row.user;
        if c'.user != u {
          assert c' in Bump(t', u);
        }
      }
    }
  }

  /** A user with at least one message has a message in the sequence. */
  lemma {:induction false} OccurrenceWitness(s: seq<Annotated>, user: string) returns (m: Annotated)
    requires Occurrences(s, user) > 0
    ensures m in s && m.row.user == user
  {
    var s' := s[..|s| - 1];
    if s[|s| - 1].row.user == user {
      m := s[|s| - 1];
    } else {
      m := OccurrenceWitness(s', user);
      assert s == s' + [s[|s| - 1]];
    }
  }

  function NegCount(c: Tally): int
  {
    -(c.count as int)
  }

  /** Inserting an entry adds its count to the total. */
  lemma {:induction false} InsertSum(x: Tally, t: seq<Tally>)
    ensures SumCounts(Insert(x, t, NegCount)) == x.count + SumCounts(t)
  {
    if t != [] && NegCount(x) > NegCount(t[0]) {
      InsertSum(x, t[1..]);
      assert Insert(x, t, NegCount)[1..] == Insert(x, t[1..], NegCount);
    } else {
      assert Insert(x, t, NegCount)[1..] == t;
    }
  }

  /** Inserting an entry for a user not yet present keeps one entry per user. */
  lemma {:induction false} InsertDistinct(x: Tally, t: seq<Tally>)
    requires DistinctUsers(t) && forall c :: c in t ==> c.user != x.user
    ensures DistinctUsers(Insert(x, t, NegCount))
  {
    if t != [] && NegCount(x) > NegCount(t[0]) {
      var rest := Insert(x, t[1..], NegCount);
      DistinctTail(t);
      InsertDistinct(x, t[1..]);
      forall c | c in rest ensures c.user != t[0].user {
        assert c in multiset(rest);
      }
      DistinctCons(t[0], rest);
    } else {
      DistinctCons(x, t);
    }
  }

  /** Ordering the tally keeps its total. */
  lemma {:induction false} SortKeepsSum(t: seq<Tally>)
    ensures SumCounts(SortBy(t, NegCount)) == SumCounts(t)
  {
    if t != [] {
      SortKeepsSum(t[1..]);
      InsertSum(t[0], SortBy(t[1..], NegCount));
    }
  }

  /** Ordering the tally keeps one entry per user. */
  lemma {:induction false} SortKeepsDistinct(t: seq<Tally>)
    requires DistinctUsers(t)
    ensures DistinctUsers(SortBy(t, NegCount))
  {
    if t != [] {
      var rest := SortBy(t[1..], NegCount);
      DistinctTail(t);
      SortKeepsDistinct(t[1..]);
      forall c | c in rest ensures c.user != t[0].user {
        assert c in multiset(t[1..]);
      }
      InsertDistinct(t[0], rest);
    }
  }

  /** Sorting keeps every entry. */
  lemma SortKeepsEntry(t: seq<Tally>, c: Tally)
    requires c in t
    ensures c in SortBy(t, NegCount)
  {
    assert c in multiset(t);
  }

  lemma SortedTallyCovers(inicios: seq<Annotated>, m: Annotated)
    requires m in inicios
    ensures var t := SortBy(TallyUsers(inicios), NegCount);
      exists i :: 0 <= i < |t| && t[i].user == m.row.user
  {
    TallyUsersCorrect(inicios);
    var c :| c in TallyUsers(inicios) && c.user == m.row.user;
    SortKeepsEntry(TallyUsers(inicios), c);
    var t := SortBy(TallyUsers(inicios), NegCount);
    var i :| 0 <= i < |t| && t[i] == c;
  }

  /** Ordering the tally by count keeps all that `TallyUsersCorrect` says about it. */
  lemma SortedTallyCorrect(inicios: seq<Annotated>)
    ensures var t := SortBy(TallyUsers(inicios), NegCount);
      && SumCounts(t) == |inicios|
      && DistinctUsers(t)
      && (forall i :: 0 <= i < |t| ==> t[i].count == Occurrences(inicios, t[i].user) && t[i].count >= 1)
      && (forall m :: m in inicios ==> exists i :: 0 <= i < |t| && t[i].user == m.row.user)
      && (forall i, j :: 0 <= i < j < |t| ==> t[i].count >= t[j].count)
  {
    var unordered := TallyUsers(inicios);
    TallyUsersCorrect(inicios);
    SortKeepsSum(unordered);
    SortKeepsDistinct(unordered);
    SortedTallyCounts(inicios);
    SortedByCountDescending(unordered);
    var t := SortBy(unordered, NegCount);
    forall m | m in inicios ensures exists i :: 0 <= i < |t| && t[i].user == m.row.user {
      SortedTallyCovers(inicios, m);
    }
  }

  lemma SortedTallyCounts(inicios: seq<Annotated>)
    ensures var t := SortBy(TallyUsers(inicios), NegCount);
      forall i :: 0 <= i < |t| ==> t[i].count == Occurrences(inicios, t[i].user) && t[i].count >= 1
  {
    var unordered := TallyUsers(inicios);
    TallyUsersCorrect(inicios);
    var t := SortBy(unordered, NegCount);
    forall i | 0 <= i < |t| ensures t[i].count == Occurrences(inicios, t[i].user) && t[i].count >= 1 {
      assert t[i] in multiset(unordered);
    }
  }

  /** Ordering by `NegCount` puts the largest count first. */
  lemma SortedByCountDescending(t: seq<Tally>)
    ensures var r := SortBy(t, NegCount);
      forall i, j :: 0 <= i < j < |r| ==> r[i].count >= r[j].count
  {
    var r := SortBy(t, NegCount);
    forall i, j | 0 <= i < j < |r| ensures r[i].count >= r[j].count {
      assert NegCount(r[i]) <= NegCount(r[j]);
    }
  }

  /**
   * `value_counts()`: one entry per user who initiated, holding that user's
   * number of initiations, largest count first.
   */
  function ValueCounts(inicios: seq<Annotated>): (t: seq<Tally>)
    ensures SumCounts(t) == |inicios|
    ensures DistinctUsers(t)
    ensures forall i :: 0 <= i < |t| ==> t[i].count == Occurrences(inicios, t[i].user) && t[i].count >= 1
    ensures forall m :: m in inicios ==> exists i :: 0 <= i < |t| && t[i].user == m.row.user
    ensures forall i, j :: 0 <= i < j < |t| ==> t[i].count >= t[j].count
  {
    SortedTallyCorrect(inicios);
    SortBy(TallyUsers(inicios), NegCount)
  }

  // ---------------------------------------------------------------------------
  // Proportions and the table

  /** `conteo / total`, put together with the user and the count. */
  function Proportions(counts: seq<Tally>, total: nat): (r: seq<Share>)
    requires counts != [] ==> total > 0
    ensures |r| == |counts|
    ensures forall i :: 0 <= i < |r| ==>
              r[i].user == counts[i].user && r[i].inicia == counts[i].count &&
              r[i].fraction == counts[i].count as real / total as real
  {
    if counts == [] then []
    else [Share(counts[0].user, counts[0].count, counts[0].count as real / total as real)] + Proportions(counts[1..], total)
  }

  function SumFractions(r: seq<Share>): real
  {
    if r == [] then 0.0 else r[0].fraction + SumFractions(r[1..])
  }

  /** Dividing each count by the total divides their sum by the total. */
  lemma {:induction false} FractionsAddUp(counts: seq<Tally>, total: nat)
    requires total > 0
    ensures SumFractions(Proportions(counts, total)) == SumCounts(counts) as real / total as real
  {
    if counts != [] {
      FractionsAddUp(counts[1..], total);
      var p := Proportions(counts, total);
      assert p[1..] == Proportions(counts[1..], total);
      AddOver(counts[0].count as real, SumCounts(counts[1..]) as real, total as real);
    }
  }

  lemma AddOver(a: real, b: real, t: real)
    requires t > 0.0
    ensures a / t + b / t == (a + b) / t
  {
  }

  /** No single count exceeds the sum of the counts. */
  lemma {:induction false} CountBelowSum(counts: seq<Tally>, i: nat)
    requires i < |counts|
    ensures counts[i].count <= SumCounts(counts)
  {
    if i > 0 {
      CountBelowSum(counts[1..], i - 1);
    }
  }

  lemma ShareBounds(count: nat, total: nat)
    requires 1 <= count <= total
    ensures 0.0 < count as real / total as real <= 1.0
  {
    var c, t := count as real, total as real;
    assert c / t * t == c;
  }

  /** `countprop`: each initiating user with the count and the share of all initiations. */
  function CountProp(inicios: seq<Annotated>): seq<Share>
  {
    var conteo := ValueCounts(inicios);
    var total := SumCounts(conteo);
    assert conteo != [] ==> total >= conteo[0].count >= 1 by {
      if conteo != [] {
        CountBelowSum(conteo, 0);
      }
    }
    Proportions(conteo, total)
  }

  /** One row per initiating user and nobody else; no initiations, no rows. */
  lemma CountPropUsers(inicios: seq<Annotated>)
    ensures var table := CountProp(inicios);
      && (table == [] <==> inicios == [])
      && (forall i, j :: 0 <= i < j < |table| ==> table[i].user != table[j].user)
      && (forall m :: m in inicios ==> exists i :: 0 <= i < |table| && table[i].user == m.row.user)
  {
    var conteo := ValueCounts(inicios);
    var table := CountProp(inicios);
    CountPropColumns(inicios);
    if inicios != [] {
      assert inicios[0] in inicios;
    }
    forall m | m in inicios ensures exists i :: 0 <= i < |table| && table[i].user == m.row.user {
      var i :| 0 <= i < |conteo| && conteo[i].user == m.row.user;
      assert table[i].user == m.row.user;
    }
  }

  /** Every user in the table sent at least one initiating message. */
  lemma CountPropOnlyInitiators(inicios: seq<Annotated>)
    ensures var table := CountProp(inicios);
      forall i :: 0 <= i < |table| ==> exists m :: m in inicios && m.row.user == table[i].user
  {
    var table := CountProp(inicios);
    CountPropCounts(inicios);
    forall i | 0 <= i < |table| ensures exists m :: m in inicios && m.row.user == table[i].user {
      var m := OccurrenceWitness(inicios, table[i].user);
    }
  }

  /** Each row holds its user's number of initiations, largest first. */
  lemma CountPropCounts(inicios: seq<Annotated>)
    ensures var table := CountProp(inicios);
      && (forall i :: 0 <= i < |table| ==> table[i].inicia == Occurrences(inicios, table[i].user) >= 1)
      && (forall i, j :: 0 <= i < j < |table| ==> table[i].inicia >= table[j].inicia)
  {
    CountPropColumns(inicios);
  }

  /** The table's `user` and `Inicia` columns are those of `value_counts()`. */
  lemma CountPropColumns(inicios: seq<Annotated>)
    ensures var table, conteo := CountProp(inicios), ValueCounts(inicios);
      && |table| == |conteo|
      && forall i :: 0 <= i < |table| ==> table[i].user == conteo[i].user && table[i].inicia == conteo[i].count
  {
  }

  /** With the counts adding up to the total, the shares add up to exactly 1. */
  lemma SharesSumToOne(counts: seq<Tally>, total: nat)
    requires total > 0 && SumCounts(counts) == total
    ensures SumFractions(Proportions(counts, total)) == 1.0
  {
    FractionsAddUp(counts, total);
    SelfOver(total as real);
  }

  lemma SelfOver(t: real)
    requires t > 0.0
    ensures t / t == 1.0
  {
  }

  lemma CountPropIsProportions(inicios: seq<Annotated>)
    ensures CountProp(inicios) == Proportions(ValueCounts(inicios), |inicios|)
  {
  }

  /** A positive count no larger than the total has a share in (0, 1]. */
  lemma ProportionShare(counts: seq<Tally>, total: nat, i: nat)
    requires total > 0
    requires i < |counts| && 1 <= counts[i].count <= total
    ensures 0.0 < Proportions(counts, total)[i].fraction <= 1.0
  {
    ShareBounds(counts[i].count, total);
  }

  /**
   * Each share is the count over the number of initiations and lies in
   * (0, 1], and the shares add up to exactly 1.
   */
  lemma CountPropShares(inicios: seq<Annotated>)
    ensures var table := CountProp(inicios);
      && (forall i :: 0 <= i < |table| ==>
            && |inicios| > 0
            && table[i].fraction == table[i].inicia as real / |inicios| as real
            && 0.0 < table[i].fraction <= 1.0)
      && (inicios != [] ==> SumFractions(table) == 1.0)
  {
    var conteo := ValueCounts(inicios);
    CountPropIsProportions(inicios);
    CountPropCounts(inicios);
    if conteo != [] {
      forall i | 0 <= i < |conteo| ensures 0.0 < Proportions(conteo, |inicios|)[i].fraction <= 1.0 {
        CountBelowSum(conteo, i);
        ProportionShare(conteo, |inicios|, i);
      }
    }
    if inicios != [] {
      SharesSumToOne(conteo, |inicios|);
    }
  }

  /**
   * `inicios`: the messages, in time order, whose gap from the previous one
   * exceeds `threshold`.
   */
  function InitiatingMessages(df: seq<Message>, threshold: int): (inicios: seq<Annotated>)
    ensures forall a :: a in inicios ==> a.newConvo && a.timeDiff > threshold
    ensures forall i, j :: 0 <= i < j < |inicios| ==> inicios[i].row.datetime <= inicios[j].row.datetime
    ensures var annotated := Annotate(SortByDatetime(df), threshold);
      && IsSubsequence(inicios, annotated)
      && (forall i :: 0 <= i < |annotated| && annotated[i].newConvo ==> annotated[i] in inicios)
      && (forall a :: multiset(inicios)[a] == (if a.newConvo then multiset(annotated)[a] else 0))
  {
    var annotated := Annotate(SortByDatetime(df), threshold);
    FilterMembership(annotated, IsNewConvo);
    InitiationsExactlyFlagged(annotated);
    assert SortedBy(annotated, RowDatetime);
    FilterKeepsSorted(annotated, IsNewConvo, RowDatetime);
    var inicios := Initiations(annotated);
    assert forall i, j :: 0 <= i < j < |inicios| ==> RowDatetime(inicios[i]) <= RowDatetime(inicios[j]);
    inicios
  }

  /**
   * What the returned table promises about the initiating messages: one row
   * per initiating user and no other, each holding that user's number of
   * initiations and its share of all of them, largest count first, the shares
   * adding up to 1. With no initiations the table is empty.
   */
  ghost predicate IsInitiationTable(table: seq<Share>, inicios: seq<Annotated>)
  {
    && (table == [] <==> inicios == [])
    && (forall i, j :: 0 <= i < j < |table| ==> table[i].user != table[j].user)
    && (forall i :: 0 <= i < |table| ==> table[i].inicia == Occurrences(inicios, table[i].user) >= 1)
    && (forall m :: m in inicios ==> exists i :: 0 <= i < |table| && table[i].user == m.row.user)
    && (forall i, j :: 0 <= i < j < |table| ==> table[i].inicia >= table[j].inicia)
    && (forall i :: 0 <= i < |table| ==>
          && |inicios| > 0
          && table[i].fraction == table[i].inicia as real / |inicios| as real
          && 0.0 < table[i].fraction <= 1.0)
    && (inicios != [] ==> SumFractions(table) == 1.0)
  }

  lemma CountPropCorrect(inicios: seq<Annotated>)
    ensures IsInitiationTable(CountProp(inicios), inicios)
  {
    CountPropUsers(inicios);
    CountPropCounts(inicios);
    CountPropShares(inicios);
  }

  /**
   * `analizar_inicios(df, umbral_minutos)`: the table of who starts
   * conversations and the initiating messages. Timestamps are in seconds, so
   * the threshold is `umbral_minutos * 60`.
   */
  function AnalizarInicios(df: seq<Message>, umbralMinutos: int): (res: (seq<Share>, seq<Annotated>))
    ensures forall a :: a in res.1 ==> a.newConvo && a.timeDiff > umbralMinutos * 60
    ensures forall i, j :: 0 <= i < j < |res.1| ==> res.1[i].row.datetime <= res.1[j].row.datetime
    ensures var annotated := Annotate(SortByDatetime(df), umbralMinutos * 60);
      && IsSubsequence(res.1, annotated)
      && (forall i :: 0 <= i < |annotated| && annotated[i].newConvo ==> annotated[i] in res.1)
      && (forall a :: multiset(res.1)[a] == (if a.newConvo then multiset(annotated)[a] else 0))
    ensures IsInitiationTable(res.0, res.1)
  {
    var inicios := InitiatingMessages(df, umbralMinutos * 60);
    CountPropCorrect(inicios);
    (CountProp(inicios), inicios)
  }

  /** Messages already in time order are left in place by the sort. */
  lemma SortByDatetimeInOrder(df: seq<Message>)
    requires forall i, j :: 0 <= i < j < |df| ==> df[i].datetime < df[j].datetime
    ensures SortByDatetime(df) == df
  {
    assert SortedBy(df, Datetime);
    SortSorted(df, Datetime);
  }

  /**
   * With the default threshold of 60 minutes, of messages at 0 s, 600 s,
   * 5400 s and 5700 s only the one at 5400 s (80 minutes after the previous
   * one) starts a conversation, and its sender gets the whole share.
   */
  lemma DefaultThresholdExample()
    ensures var df := [Message(0, "A", "hi"), Message(600, "B", "ok"), Message(5400, "C", "hola"), Message(5700, "D", "si")];
      var res := AnalizarInicios(df, DefaultUmbralMinutos);
      && res.1 == [Annotated(Message(5400, "C", "hola"), 4800, true)]
      && res.0 == [Share("C", 1, 1.0)]
  {
    var a, b, c, d := Message(0, "A", "hi"), Message(600, "B", "ok"), Message(5400, "C", "hola"), Message(5700, "D", "si");
    ExampleInitiatingMessages(a, b, c, d);
    ExampleTable([Annotated(c, 4800, true)]);
  }

  lemma ExampleInOrder(a: Message, b: Message, c: Message, d: Message)
    requires a.datetime < b.datetime < c.datetime < d.datetime
    ensures var df := [a, b, c, d]; forall i, j :: 0 <= i < j < |df| ==> df[i].datetime < df[j].datetime
  {
  }

  lemma ExampleInitiatingMessages(a: Message, b: Message, c: Message, d: Message)
    requires a.datetime == 0 && b.datetime == 600 && c.datetime == 5400 && d.datetime == 5700
    ensures InitiatingMessages([a, b, c, d], DefaultUmbralMinutos * 60) == [Annotated(c, 4800, true)]
  {
    var df := [a, b, c, d];
    ExampleInOrder(a, b, c, d);
    SortByDatetimeInOrder(df);
    var inicios := ExampleInitiations(a, b, c, d);
    assert InitiatingMessages(df, DefaultUmbralMinutos * 60) == Initiations(Annotate(df, 3600));
  }

  lemma ExampleInitiations(a: Message, b: Message, c: Message, d: Message) returns (inicios: seq<Annotated>)
    requires a.datetime == 0 && b.datetime == 600 && c.datetime == 5400 && d.datetime == 5700
    ensures inicios == [Annotated(c, 4800, true)]
    ensures Initiations(Annotate([a, b, c, d], 3600)) == inicios
  {
    var sorted := [a, b, c, d];
    var annotated := Annotate(sorted, 3600);
    assert annotated[0] == Annotated(a, 0, false) && annotated[1] == Annotated(b, 600, false);
    assert annotated[2] == Annotated(c, 4800, true) && annotated[3] == Annotated(d, 300, false);
    inicios := [Annotated(c, 4800, true)];
    var p1, p2, p3 := annotated[..1], annotated[..2], annotated[..3];
    assert p1[..0] == [] && p2[..1] == p1 && p3[..2] == p2 && annotated[..3] == p3;
    assert Initiations(p1) == [];
    assert Initiations(p2) == [];
    assert Initiations(p3) == inicios;
    assert Initiations(annotated) == inicios;
  }

  lemma ExampleTable(inicios: seq<Annotated>)
    requires inicios == [Annotated(Message(5400, "C", "hola"), 4800, true)]
    ensures CountProp(inicios) == [Share("C", 1, 1.0)]
  {
    assert inicios[..0] == [];
    assert TallyUsers(inicios) == [Tally("C", 1)];
    assert ValueCounts(inicios) == [Tally("C", 1)];
  }
}
