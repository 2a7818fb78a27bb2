/**
 * Term-frequency tables and the index built from them.
 *
 * The same counting loop appears three times in the source
 * (src/interactives.rs:263-277, src/interact.rs:262-275,
 * src/main.rs:186-199): every term the lexer yields over a document bumps
 * its count in a `term -> count` table, and the table is then inserted into
 * the `path -> table` index. This module holds that loop once, the
 * occurrence count it computes, and the fold over a stream of
 * `(path, content)` messages that builds the index.
 */
module TermFrequency {
  import opened Wrappers
  import opened Unicode
  import opened Lexer

  /** `HashMap<String, usize>`: how often each term occurs in one document. */
  type TermFreq = map<string, nat>

  /** `HashMap<PathBuf, TermFreq>`: one table per indexed document. */
  type TermFreqIndex = map<string, TermFreq>

  /** The number of times `t` occurs in `terms`. */
  function Count(terms: seq<string>, t: string): nat {
    multiset(terms)[t]
  }

  /** The table of a list of terms: every distinct term, mapped to its number of occurrences. */
  function Occurrences(terms: seq<string>): (tf: TermFreq)
    ensures forall t :: t in tf <==> t in terms
    ensures forall t :: t in tf ==> tf[t] == Count(terms, t) && tf[t] >= 1
  {
    map t | t in multiset(terms) :: multiset(terms)[t]
  }

  /** The table of one document's text. */
  function Table(u: Tables, text: string): TermFreq {
    Occurrences(Tokens(u, text))
  }

  /** The count of `t` in `tf`, 0 when absent (`get` followed by `unwrap_or(0)`). */
  function Get(tf: TermFreq, t: string): nat {
    if t in tf then tf[t] else 0
  }

  /** One more term: its count goes up by one and nothing else changes. */
  lemma OccurrencesSnoc(terms: seq<string>, t: string)
    ensures Occurrences(terms + [t]) == Occurrences(terms)[t := Get(Occurrences(terms), t) + 1]
  {
    assert multiset(terms + [t]) == multiset(terms) + multiset{t};
  }

  /** The two branches of the counting loop: bump an existing count, or start one at 1. */
  lemma CountStep(seen: seq<string>, term: string, tf: TermFreq)
    requires tf == Occurrences(seen)
    ensures (if term in tf then tf[term := tf[term] + 1] else tf[term := 1]) == Occurrences(seen + [term])
  {
    OccurrencesSnoc(seen, term);
  }

  /**
   * The counting loop: drains a lexer over `content`, bumping the count of
   * each term it yields, or starting it at 1.
   */
  method CountTerms(u: Tables, content: string) returns (tf: TermFreq)
    ensures tf == Table(u, content)
  {
    tf := map[];
    var lexer := new Lexer(content);
    ghost var seen: seq<string> := [];
    while true
      invariant seen + Tokens(u, lexer.content) == Tokens(u, content)
      invariant tf == Occurrences(seen)
      decreases |lexer.content|
    {
      var token := lexer.Next(u);
      if token == None {
        assert seen + [] == seen;
        return;
      }
      var term := token.value;
      CountStep(seen, term, tf);
      if term in tf {
        tf := tf[term := tf[term] + 1];
      } else {
        tf := tf[term := 1];
      }
      Regroup(seen, term, Tokens(u, lexer.content));
      seen := seen + [term];
    }
  }

  /** The sum of the counts of a table (`values().sum()`). */
  ghost function SumValues(tf: TermFreq): nat
    decreases |tf|
  {
    if tf == map[] then 0
    else
      var k :| k in tf;
      tf[k] + SumValues(tf - {k})
  }

  /** The sum may be taken apart at any key, not just the one `SumValues` picks. */
  lemma {:induction false} SumValuesRemove(tf: TermFreq, k: string)
    requires k in tf
    ensures SumValues(tf) == tf[k] + SumValues(tf - {k})
    decreases |tf|
  {
    var j :| j in tf && SumValues(tf) == tf[j] + SumValues(tf - {j});
    if j != k {
      assert tf - {j} - {k} == tf - {k} - {j};
      assert (tf - {j}).Keys == tf.Keys - {j};
      SumValuesRemove(tf - {j}, k);
      assert (tf - {k}).Keys == tf.Keys - {k};
      SumValuesRemove(tf - {k}, j);
    }
  }

  /** Setting one count changes the sum by the difference. */
  lemma SumValuesUpdate(tf: TermFreq, k: string, v: nat)
    ensures SumValues(tf[k := v]) + Get(tf, k) == SumValues(tf) + v
  {
    SumValuesRemove(tf[k := v], k);
    assert tf[k := v] - {k} == tf - {k};
    if k in tf {
      SumValuesRemove(tf, k);
    } else {
      assert tf - {k} == tf;
    }
  }

  /** The counts of a table add up to the number of terms it was built from. */
  lemma {:induction false} SumOfOccurrences(terms: seq<string>)
    ensures SumValues(Occurrences(terms)) == |terms|
  {
    if terms != [] {
      var init, last := terms[..|terms| - 1], terms[|terms| - 1];
      assert terms == init + [last];
      SumOfOccurrences(init);
      OccurrencesSnoc(init, last);
      SumValuesUpdate(Occurrences(init), last, Get(Occurrences(init), last) + 1);
    } else {
      assert Occurrences(terms) == map[];
    }
  }

  /** A document's table: its counts add up to the number of terms the lexer yields. */
  lemma TableTotal(u: Tables, text: string)
    ensures SumValues(Table(u, text)) == |Tokens(u, text)|
  {
    SumOfOccurrences(Tokens(u, text));
  }

  /** A message to the aggregator: a path and the extracted characters. */
  datatype Message = Message(path: string, content: string)

  /** The paths of a list of messages. */
  function Paths(msgs: seq<Message>): set<string> {
    set m | m in msgs :: m.path
  }

  /**
   * The index after inserting the table of each message in turn into `index`
   * (`HashMap::insert`, so a later message for the same path replaces the
   * table of an earlier one).
   */
  function Ingest(u: Tables, msgs: seq<Message>, index: TermFreqIndex): TermFreqIndex
    decreases |msgs|
  {
    if msgs == [] then index
    else Ingest(u, msgs[1..], index[msgs[0].path := Table(u, msgs[0].content)])
  }

  /** The first message is inserted first. */
  lemma IngestFirst(u: Tables, m: Message, msgs: seq<Message>, index: TermFreqIndex)
    ensures Ingest(u, [m] + msgs, index) == Ingest(u, msgs, index[m.path := Table(u, m.content)])
  {
    assert ([m] + msgs)[1..] == msgs;
  }

  /** The keys of the index are the old keys and exactly the paths received. */
  lemma {:induction false} IngestKeys(u: Tables, msgs: seq<Message>, index: TermFreqIndex)
    ensures Ingest(u, msgs, index).Keys == index.Keys + Paths(msgs)
    decreases |msgs|
  {
    if msgs != [] {
      IngestKeys(u, msgs[1..], index[msgs[0].path := Table(u, msgs[0].content)]);
      PathsFirst(msgs);
    }
  }

  lemma PathsFirst(msgs: seq<Message>)
    requires msgs != []
    ensures Paths(msgs) == {msgs[0].path} + Paths(msgs[1..])
  {
    assert msgs == [msgs[0]] + msgs[1..];
  }

  /** A path that no message names keeps its old entry. */
  lemma {:induction false} IngestElsewhere(u: Tables, msgs: seq<Message>, index: TermFreqIndex, p: string)
    requires p !in Paths(msgs) && p in index
    ensures p in Ingest(u, msgs, index) && Ingest(u, msgs, index)[p] == index[p]
    decreases |msgs|
  {
    if msgs != [] {
      assert msgs[0] in msgs;
      assert Paths(msgs[1..]) <= Paths(msgs);
      IngestElsewhere(u, msgs[1..], index[msgs[0].path := Table(u, msgs[0].content)], p);
    }
  }

  /**
   * The entry of a path is the table of the LAST message that names it: the
   * last `insert` wins.
   */
  lemma {:induction false} IngestLastWins(u: Tables, msgs: seq<Message>, index: TermFreqIndex, i: nat)
    requires i < |msgs|
    requires forall j :: i < j < |msgs| ==> msgs[j].path != msgs[i].path
    ensures msgs[i].path in Ingest(u, msgs, index)
    ensures Ingest(u, msgs, index)[msgs[i].path] == Table(u, msgs[i].content)
    decreases |msgs|
  {
    var next := index[msgs[0].path := Table(u, msgs[0].content)];
    if i == 0 {
      assert forall m | m in msgs[1..] :: m.path != msgs[0].path by {
        forall m | m in msgs[1..] ensures m.path != msgs[0].path {
          var j :| 0 <= j < |msgs[1..]| && msgs[1..][j] == m;
          assert msgs[j + 1] == m;
        }
      }
      IngestElsewhere(u, msgs[1..], next, msgs[0].path);
    } else {
      IngestLastWins(u, msgs[1..], next, i - 1);
    }
  }

  /** No two messages name the same path. */
  predicate DistinctPaths(msgs: seq<Message>) {
    forall i, j :: 0 <= i < j < |msgs| ==> msgs[i].path != msgs[j].path
  }

  /** With distinct paths, every message's table ends up under its own path. */
  lemma IngestDistinct(u: Tables, msgs: seq<Message>, m: Message)
    requires DistinctPaths(msgs) && m in msgs
    ensures m.path in Ingest(u, msgs, map[]) && Ingest(u, msgs, map[])[m.path] == Table(u, m.content)
  {
    var i :| 0 <= i < |msgs| && msgs[i] == m;
    IngestLastWins(u, msgs, map[], i);
  }

  /** Rearranging messages with distinct paths leaves their paths distinct. */
  lemma PermutationKeepsDistinct(msgs: seq<Message>, other: seq<Message>)
    requires DistinctPaths(other) && multiset(msgs) == multiset(other)
    ensures DistinctPaths(msgs)
  {
    forall i, j | 0 <= i < j < |msgs| ensures msgs[i].path != msgs[j].path {
      if msgs[i] == msgs[j] {
        CountedTwice(msgs, i, j);
        CountedOnce(other, msgs[i]);
      } else {
        assert msgs[i] in multiset(other) && msgs[j] in multiset(other);
        var x :| 0 <= x < |other| && other[x] == msgs[i];
        var y :| 0 <= y < |other| && other[y] == msgs[j];
      }
    }
  }

  lemma CountedTwice(msgs: seq<Message>, i: nat, j: nat)
    requires i < j < |msgs| && msgs[i] == msgs[j]
    ensures multiset(msgs)[msgs[i]] >= 2
  {
    assert msgs == msgs[..i] + [msgs[i]] + msgs[i + 1..j] + [msgs[j]] + msgs[j + 1..];
  }

  lemma {:induction false} CountedOnce(msgs: seq<Message>, m: Message)
    requires DistinctPaths(msgs) && m in msgs
    ensures multiset(msgs)[m] == 1
  {
    assert msgs == [msgs[0]] + msgs[1..];
    if msgs[0] == m {
      assert forall k :: 0 <= k < |msgs[1..]| ==> msgs[1..][k].path != m.path by {
        forall k | 0 <= k < |msgs[1..]| ensures msgs[1..][k].path != m.path {
          assert msgs[1..][k] == msgs[k + 1];
        }
      }
      assert m !in msgs[1..];
    } else {
      CountedOnce(msgs[1..], m);
    }
  }

  /**
   * With distinct paths, the index does not depend on the order in which
   * the messages arrive: any rearrangement gives the same index.
   */
  lemma IngestOrderIndependent(u: Tables, msgs: seq<Message>, other: seq<Message>)
    requires DistinctPaths(msgs) && DistinctPaths(other)
    requires multiset(msgs) == multiset(other)
    ensures Ingest(u, msgs, map[]) == Ingest(u, other, map[])
  {
    IngestKeys(u, msgs, map[]);
    IngestKeys(u, other, map[]);
    SameMembers(msgs, other);
    forall p | p in Paths(msgs)
      ensures Ingest(u, msgs, map[])[p] == Ingest(u, other, map[])[p]
    {
      SameEntry(u, msgs, other, p);
    }
  }

  /** Rearranged messages are the same messages, naming the same paths. */
  lemma SameMembers(msgs: seq<Message>, other: seq<Message>)
    requires multiset(msgs) == multiset(other)
    ensures forall m :: m in msgs <==> m in other
    ensures Paths(msgs) == Paths(other)
  {
    forall m ensures m in msgs <==> m in other {
      assert m in msgs <==> m in multiset(msgs);
      assert m in other <==> m in multiset(other);
    }
  }

  lemma SameEntry(u: Tables, msgs: seq<Message>, other: seq<Message>, p: string)
    requires DistinctPaths(msgs) && DistinctPaths(other)
    requires forall m :: m in msgs <==> m in other
    requires p in Paths(msgs)
    ensures p in Ingest(u, msgs, map[]) && p in Ingest(u, other, map[])
    ensures Ingest(u, msgs, map[])[p] == Ingest(u, other, map[])[p]
  {
    var m :| m in msgs && m.path == p;
    IngestDistinct(u, msgs, m);
    IngestDistinct(u, other, m);
  }

  /** Every count of an index built by the indexer is at least 1. */
  ghost predicate WellFormed(index: TermFreqIndex) {
    forall p, t :: p in index && t in index[p] ==> index[p][t] >= 1
  }

  /** Ingesting messages keeps an index well formed. */
  lemma {:induction false} IngestWellFormed(u: Tables, msgs: seq<Message>, index: TermFreqIndex)
    requires WellFormed(index)
    ensures WellFormed(Ingest(u, msgs, index))
    decreases |msgs|
  {
    if msgs != [] {
      IngestWellFormed(u, msgs[1..], index[msgs[0].path := Table(u, msgs[0].content)]);
    }
  }
}
