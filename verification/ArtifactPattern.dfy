/** internal/artifactpattern: the memoised glob search, what it means, and the
    descendant test that lets a collector account for a directory it prunes. */
module ArtifactPattern {
  import opened Segments

  /** What path.Match answers for one pattern segment and one path segment. */
  datatype SegmentMatch = Matches | Differs | Malformed
  type SegmentOracle = (string, string) -> SegmentMatch

  /** (true, nil), (false, nil) and (_, err). */
  datatype Outcome = Hit | Miss | BadPattern

  type State = (nat, nat)

  const ANY_DEPTH := "**"

  // ----- Meaning: a division of the candidate among the pattern's segments -----

  /** `segment` may take candidate segments from..to: any number for `**`, else exactly one. */
  ghost predicate Takes(oracle: SegmentOracle, segment: string, candidate: seq<string>, from: nat, to: nat)
  {
    && from <= to <= |candidate|
    && (segment != ANY_DEPTH ==> to == from + 1 && oracle(segment, candidate[from]) == Matches)
  }

  /** Pattern segments i..k divide candidate segments j..l at `cuts`. */
  ghost predicate Divides(oracle: SegmentOracle, pattern: seq<string>, candidate: seq<string>,
                          i: nat, j: nat, k: nat, l: nat, cuts: seq<nat>)
  {
    && i <= k <= |pattern| && j <= l <= |candidate|
    && |cuts| == k - i + 1 && cuts[0] == j && cuts[k - i] == l
    && forall t :: 0 <= t < k - i ==> Takes(oracle, pattern[i + t], candidate, cuts[t], cuts[t + 1])
  }

  ghost predicate Reaches(oracle: SegmentOracle, pattern: seq<string>, candidate: seq<string>,
                          i: nat, j: nat, k: nat, l: nat)
  {
    exists cuts :: Divides(oracle, pattern, candidate, i, j, k, l, cuts)
  }

  /** The declarative reading of a glob: the whole pattern divides the whole candidate. */
  ghost predicate Selects(oracle: SegmentOracle, pattern: string, candidate: string)
  {
    var ps, cs := Split(pattern, '/'), Split(candidate, '/');
    Reaches(oracle, ps, cs, 0, 0, |ps|, |cs|)
  }

  /** A comparison that some division of an initial part of the pattern arrives at, and that is malformed. */
  ghost predicate ReachesMalformed(oracle: SegmentOracle, pattern: seq<string>, candidate: seq<string>,
                                   i: nat, j: nat, k: nat, l: nat)
  {
    && k < |pattern| && l < |candidate| && pattern[k] != ANY_DEPTH
    && oracle(pattern[k], candidate[l]) == Malformed
    && Reaches(oracle, pattern, candidate, i, j, k, l)
  }

  ghost predicate WellFormed(oracle: SegmentOracle, pattern: string)
  {
    var ps := Split(pattern, '/');
    forall k, name :: 0 <= k < |ps| && ps[k] != ANY_DEPTH ==> oracle(ps[k], name) != Malformed
  }

  ghost predicate SatisfiedBy(oracle: SegmentOracle, segment: string, name: string)
  {
    name != "" && '/' !in name && (segment != ANY_DEPTH ==> oracle(segment, name) == Matches)
  }

  ghost predicate SegmentsSatisfiable(oracle: SegmentOracle, pattern: seq<string>)
  {
    forall k :: 0 <= k < |pattern| ==> exists name :: SatisfiedBy(oracle, pattern[k], name)
  }

  /** Every pattern segment matches some legal file name. */
  ghost predicate Satisfiable(oracle: SegmentOracle, pattern: string)
  {
    SegmentsSatisfiable(oracle, Split(pattern, '/'))
  }

  lemma ReachesBySkipping(oracle: SegmentOracle, pattern: seq<string>, candidate: seq<string>,
                          i: nat, j: nat, mid: nat, k: nat, l: nat)
    requires i < |pattern| && Takes(oracle, pattern[i], candidate, j, mid)
    requires Reaches(oracle, pattern, candidate, i + 1, mid, k, l)
    ensures Reaches(oracle, pattern, candidate, i, j, k, l)
  {
    var cuts :| Divides(oracle, pattern, candidate, i + 1, mid, k, l, cuts);
    var longer := [j] + cuts;
    forall t | 0 <= t < k - i ensures Takes(oracle, pattern[i + t], candidate, longer[t], longer[t + 1]) {
      if t > 0 {
        assert Takes(oracle, pattern[i + 1 + (t - 1)], candidate, cuts[t - 1], cuts[t]);
      }
    }
    assert Divides(oracle, pattern, candidate, i, j, k, l, longer);
  }

  lemma ReachesByWidening(oracle: SegmentOracle, pattern: seq<string>, candidate: seq<string>,
                          i: nat, j: nat, k: nat, l: nat)
    requires i < k && i < |pattern| && pattern[i] == ANY_DEPTH
    requires Reaches(oracle, pattern, candidate, i, j + 1, k, l)
    ensures Reaches(oracle, pattern, candidate, i, j, k, l)
  {
    var cuts :| Divides(oracle, pattern, candidate, i, j + 1, k, l, cuts);
    var wider := cuts[0 := j];
    forall t | 0 <= t < k - i ensures Takes(oracle, pattern[i + t], candidate, wider[t], wider[t + 1]) {
      assert Takes(oracle, pattern[i + t], candidate, cuts[t], cuts[t + 1]);
    }
    assert Divides(oracle, pattern, candidate, i, j, k, l, wider);
  }

  lemma ReachesNothing(oracle: SegmentOracle, pattern: seq<string>, candidate: seq<string>, i: nat, j: nat)
    requires i <= |pattern| && j <= |candidate|
    ensures Reaches(oracle, pattern, candidate, i, j, i, j)
  {
    assert Divides(oracle, pattern, candidate, i, j, i, j, [j]);
  }

  /** A division that still has pattern segment i to place starts with that segment's share. */
  lemma DivisionTail(oracle: SegmentOracle, pattern: seq<string>, candidate: seq<string>,
                     i: nat, j: nat, k: nat, l: nat, cuts: seq<nat>)
    requires i < k && Divides(oracle, pattern, candidate, i, j, k, l, cuts)
    ensures Takes(oracle, pattern[i], candidate, j, cuts[1])
    ensures Divides(oracle, pattern, candidate, i + 1, cuts[1], k, l, cuts[1..])
    ensures j < cuts[1] && pattern[i] == ANY_DEPTH ==>
              Divides(oracle, pattern, candidate, i, j + 1, k, l, cuts[0 := j + 1])
  {
    assert Takes(oracle, pattern[i + 0], candidate, cuts[0], cuts[1]);
    DivisionMonotone(oracle, pattern, candidate, i, j, k, l, cuts, 1);
    forall t | 0 <= t < k - i - 1
      ensures Takes(oracle, pattern[i + 1 + t], candidate, cuts[1..][t], cuts[1..][t + 1])
    {
      assert Takes(oracle, pattern[i + (t + 1)], candidate, cuts[t + 1], cuts[t + 2]);
    }
    if j < cuts[1] && pattern[i] == ANY_DEPTH {
      var shorter := cuts[0 := j + 1];
      forall t | 0 <= t < k - i ensures Takes(oracle, pattern[i + t], candidate, shorter[t], shorter[t + 1]) {
        assert Takes(oracle, pattern[i + t], candidate, cuts[t], cuts[t + 1]);
      }
    }
  }

  lemma {:induction false} DivisionMonotone(oracle: SegmentOracle, pattern: seq<string>, candidate: seq<string>,
                                            i: nat, j: nat, k: nat, l: nat, cuts: seq<nat>, t: nat)
    requires Divides(oracle, pattern, candidate, i, j, k, l, cuts) && t <= k - i
    ensures cuts[t] <= l
    decreases k - i - t
  {
    if t < k - i {
      assert Takes(oracle, pattern[i + t], candidate, cuts[t], cuts[t + 1]);
      DivisionMonotone(oracle, pattern, candidate, i, j, k, l, cuts, t + 1);
    }
  }

  // ----- Match -----

  /** The recursion of Match without its memo tables. */
  function MatchFrom(oracle: SegmentOracle, pattern: seq<string>, candidate: seq<string>, i: nat, j: nat): Outcome
    requires i <= |pattern| && j <= |candidate|
    decreases |pattern| - i + |candidate| - j
  {
    if i == |pattern| then
      if j == |candidate| then Hit else Miss
    else if pattern[i] == ANY_DEPTH then
      var without := MatchFrom(oracle, pattern, candidate, i + 1, j);
      if without != Miss then without
      else if j < |candidate| then MatchFrom(oracle, pattern, candidate, i, j + 1)
      else Miss
    else if j == |candidate| then Miss
    else
      match oracle(pattern[i], candidate[j])
      case Malformed => BadPattern
      case Differs => Miss
      case Matches => MatchFrom(oracle, pattern, candidate, i + 1, j + 1)
  }

  function MatchOutcome(oracle: SegmentOracle, pattern: string, candidate: string): Outcome
  {
    MatchFrom(oracle, Split(pattern, '/'), Split(candidate, '/'), 0, 0)
  }

  lemma {:induction false} MatchFromSound(oracle: SegmentOracle, pattern: seq<string>, candidate: seq<string>,
                                          i: nat, j: nat)
    requires i <= |pattern| && j <= |candidate|
    ensures MatchFrom(oracle, pattern, candidate, i, j) == Hit ==>
              Reaches(oracle, pattern, candidate, i, j, |pattern|, |candidate|)
    ensures MatchFrom(oracle, pattern, candidate, i, j) == BadPattern ==>
              exists k, l :: ReachesMalformed(oracle, pattern, candidate, i, j, k, l)
    decreases |pattern| - i + |candidate| - j
  {
    ReachesNothing(oracle, pattern, candidate, i, j);
    if i == |pattern| {
    } else if pattern[i] == ANY_DEPTH {
      MatchFromSound(oracle, pattern, candidate, i + 1, j);
      var without := MatchFrom(oracle, pattern, candidate, i + 1, j);
      if without == Hit {
        ReachesBySkipping(oracle, pattern, candidate, i, j, j, |pattern|, |candidate|);
      } else if without == BadPattern {
        var k, l :| ReachesMalformed(oracle, pattern, candidate, i + 1, j, k, l);
        ReachesBySkipping(oracle, pattern, candidate, i, j, j, k, l);
        assert ReachesMalformed(oracle, pattern, candidate, i, j, k, l);
      } else if j < |candidate| {
        MatchFromSound(oracle, pattern, candidate, i, j + 1);
        if MatchFrom(oracle, pattern, candidate, i, j + 1) == Hit {
          ReachesByWidening(oracle, pattern, candidate, i, j, |pattern|, |candidate|);
        } else if MatchFrom(oracle, pattern, candidate, i, j + 1) == BadPattern {
          var k, l :| ReachesMalformed(oracle, pattern, candidate, i, j + 1, k, l);
          ReachesByWidening(oracle, pattern, candidate, i, j, k, l);
          assert ReachesMalformed(oracle, pattern, candidate, i, j, k, l);
        }
      }
    } else if j < |candidate| {
      if oracle(pattern[i], candidate[j]) == Malformed {
        assert ReachesMalformed(oracle, pattern, candidate, i, j, i, j);
      } else if oracle(pattern[i], candidate[j]) == Matches {
        MatchFromSound(oracle, pattern, candidate, i + 1, j + 1);
        var rest := MatchFrom(oracle, pattern, candidate, i + 1, j + 1);
        if rest == Hit {
          ReachesBySkipping(oracle, pattern, candidate, i, j, j + 1, |pattern|, |candidate|);
        } else if rest == BadPattern {
          var k, l :| ReachesMalformed(oracle, pattern, candidate, i + 1, j + 1, k, l);
          ReachesBySkipping(oracle, pattern, candidate, i, j, j + 1, k, l);
          assert ReachesMalformed(oracle, pattern, candidate, i, j, k, l);
        }
      }
    }
  }

  lemma {:induction false} MatchFromComplete(oracle: SegmentOracle, pattern: seq<string>, candidate: seq<string>,
                                             i: nat, j: nat, cuts: seq<nat>)
    requires Divides(oracle, pattern, candidate, i, j, |pattern|, |candidate|, cuts)
    ensures MatchFrom(oracle, pattern, candidate, i, j) != Miss
    decreases |pattern| - i + |candidate| - j
  {
    if i < |pattern| {
      DivisionTail(oracle, pattern, candidate, i, j, |pattern|, |candidate|, cuts);
      if pattern[i] == ANY_DEPTH && j < cuts[1] {
        MatchFromComplete(oracle, pattern, candidate, i, j + 1, cuts[0 := j + 1]);
      } else {
        MatchFromComplete(oracle, pattern, candidate, i + 1, cuts[1], cuts[1..]);
      }
    }
  }

  /** What each of Match's three answers says about the declarative reading. */
  lemma MatchMeaning(oracle: SegmentOracle, pattern: string, candidate: string)
    ensures MatchOutcome(oracle, pattern, candidate) == Hit ==> Selects(oracle, pattern, candidate)
    ensures MatchOutcome(oracle, pattern, candidate) == Miss ==> !Selects(oracle, pattern, candidate)
    ensures MatchOutcome(oracle, pattern, candidate) == BadPattern ==>
              exists k, l :: ReachesMalformed(oracle, Split(pattern, '/'), Split(candidate, '/'), 0, 0, k, l)
    ensures WellFormed(oracle, pattern) ==>
              (MatchOutcome(oracle, pattern, candidate) == Hit <==> Selects(oracle, pattern, candidate))
  {
    var ps, cs := Split(pattern, '/'), Split(candidate, '/');
    MatchFromSound(oracle, ps, cs, 0, 0);
    if Selects(oracle, pattern, candidate) {
      var cuts :| Divides(oracle, ps, cs, 0, 0, |ps|, |cs|, cuts);
      MatchFromComplete(oracle, ps, cs, 0, 0, cuts);
    }
  }

  // ----- CouldMatchDescendant -----

  /** The recursion of CouldMatchDescendant without its memo tables. */
  function PossibleFrom(oracle: SegmentOracle, pattern: seq<string>, prefix: seq<string>, i: nat, j: nat): Outcome
    requires i <= |pattern| && j <= |prefix|
    decreases |pattern| - i + |prefix| - j
  {
    if j == |prefix| then
      if i < |pattern| then Hit else Miss
    else if i == |pattern| then Miss
    else if pattern[i] == ANY_DEPTH then
      var without := PossibleFrom(oracle, pattern, prefix, i + 1, j);
      if without != Miss then without else PossibleFrom(oracle, pattern, prefix, i, j + 1)
    else
      match oracle(pattern[i], prefix[j])
      case Malformed => BadPattern
      case Differs => Miss
      case Matches => PossibleFrom(oracle, pattern, prefix, i + 1, j + 1)
  }

  function DescendantOutcome(oracle: SegmentOracle, pattern: string, prefix: string): Outcome
  {
    PossibleFrom(oracle, Split(pattern, '/'), Split(prefix, '/'), 0, 0)
  }

  ghost function NameFor(oracle: SegmentOracle, segment: string): (name: string)
    requires exists name :: SatisfiedBy(oracle, segment, name)
    ensures SatisfiedBy(oracle, segment, name)
  {
    var name :| SatisfiedBy(oracle, segment, name);
    name
  }

  ghost predicate LegalNames(segments: seq<string>)
  {
    forall k :: 0 <= k < |segments| ==> segments[k] != "" && '/' !in segments[k]
  }

  /** The rest of a satisfiable pattern, one legal name for each segment. */
  lemma FillRemainder(oracle: SegmentOracle, pattern: seq<string>, prefix: seq<string>, i: nat)
    returns (extension: seq<string>)
    requires i < |pattern|
    requires SegmentsSatisfiable(oracle, pattern)
    ensures extension != [] && LegalNames(extension)
    ensures Reaches(oracle, pattern, prefix + extension, i, |prefix|, |pattern|, |prefix + extension|)
  {
    extension := seq(|pattern| - i, t requires 0 <= t < |pattern| - i => NameFor(oracle, pattern[i + t]));
    forall t | 0 <= t < |extension| ensures SatisfiedBy(oracle, pattern[i + t], extension[t]) {
      assert extension[t] == NameFor(oracle, pattern[i + t]);
    }
    var cuts := seq(|pattern| - i + 1, t requires 0 <= t => |prefix| + t);
    forall t | 0 <= t < |pattern| - i
      ensures Takes(oracle, pattern[i + t], prefix + extension, cuts[t], cuts[t + 1])
    {
      assert (prefix + extension)[|prefix| + t] == extension[t];
    }
    assert Divides(oracle, pattern, prefix + extension, i, |prefix|, |pattern|, |prefix + extension|, cuts);
  }

  lemma {:induction false} PossibleFromSound(oracle: SegmentOracle, pattern: seq<string>, prefix: seq<string>,
                                             i: nat, j: nat)
    returns (extension: seq<string>)
    requires i <= |pattern| && j <= |prefix|
    requires SegmentsSatisfiable(oracle, pattern)
    requires PossibleFrom(oracle, pattern, prefix, i, j) == Hit
    ensures extension != [] && LegalNames(extension)
    ensures Reaches(oracle, pattern, prefix + extension, i, j, |pattern|, |prefix + extension|)
    decreases |pattern| - i + |prefix| - j
  {
    if j == |prefix| {
      extension := FillRemainder(oracle, pattern, prefix, i);
    } else if pattern[i] == ANY_DEPTH {
      if PossibleFrom(oracle, pattern, prefix, i + 1, j) == Hit {
        extension := PossibleFromSound(oracle, pattern, prefix, i + 1, j);
        ReachesBySkipping(oracle, pattern, prefix + extension, i, j, j, |pattern|, |prefix + extension|);
      } else {
        extension := PossibleFromSound(oracle, pattern, prefix, i, j + 1);
        ReachesByWidening(oracle, pattern, prefix + extension, i, j, |pattern|, |prefix + extension|);
      }
    } else {
      extension := PossibleFromSound(oracle, pattern, prefix, i + 1, j + 1);
      assert (prefix + extension)[j] == prefix[j];
      ReachesBySkipping(oracle, pattern, prefix + extension, i, j, j + 1, |pattern|, |prefix + extension|);
    }
  }

  lemma {:induction false} PossibleFromComplete(oracle: SegmentOracle, pattern: seq<string>, prefix: seq<string>,
                                                extension: seq<string>, i: nat, j: nat, cuts: seq<nat>)
    requires extension != [] && j <= |prefix|
    requires Divides(oracle, pattern, prefix + extension, i, j, |pattern|, |prefix + extension|, cuts)
    ensures PossibleFrom(oracle, pattern, prefix, i, j) != Miss
    decreases |pattern| - i + |prefix| - j
  {
    if i < |pattern| && j < |prefix| {
      DivisionTail(oracle, pattern, prefix + extension, i, j, |pattern|, |prefix + extension|, cuts);
      if pattern[i] == ANY_DEPTH && j < cuts[1] {
        PossibleFromComplete(oracle, pattern, prefix, extension, i, j + 1, cuts[0 := j + 1]);
      } else {
        PossibleFromComplete(oracle, pattern, prefix, extension, i + 1, cuts[1], cuts[1..]);
      }
    }
  }

  /** No false negatives, whatever the pattern: a match below the prefix is never denied. */
  lemma DescendantNeverMissed(oracle: SegmentOracle, pattern: string, prefix: string, rest: string)
    requires Selects(oracle, pattern, prefix + "/" + rest)
    ensures DescendantOutcome(oracle, pattern, prefix) != Miss
  {
    SplitAppend(prefix, rest, '/');
    var ps, xs, extension := Split(pattern, '/'), Split(prefix, '/'), Split(rest, '/');
    var cuts :| Divides(oracle, ps, xs + extension, 0, 0, |ps|, |xs + extension|, cuts);
    PossibleFromComplete(oracle, ps, xs, extension, 0, 0, cuts);
  }

  /** For a satisfiable pattern a positive answer names a real descendant path. */
  lemma DescendantWitness(oracle: SegmentOracle, pattern: string, prefix: string) returns (rest: string)
    requires Satisfiable(oracle, pattern)
    requires DescendantOutcome(oracle, pattern, prefix) == Hit
    ensures LegalNames(Split(rest, '/'))
    ensures Selects(oracle, pattern, prefix + "/" + rest)
  {
    var ps, xs := Split(pattern, '/'), Split(prefix, '/');
    var extension := PossibleFromSound(oracle, ps, xs, 0, 0);
    rest := Join(extension, '/');
    SplitJoin(extension, '/');
    SplitAppend(prefix, rest, '/');
  }

  /** CouldMatchDescendant is exact on well-formed, satisfiable patterns. */
  lemma DescendantExact(oracle: SegmentOracle, pattern: string, prefix: string)
    requires WellFormed(oracle, pattern) && Satisfiable(oracle, pattern)
    ensures DescendantOutcome(oracle, pattern, prefix) == Hit <==>
            exists rest :: MatchOutcome(oracle, pattern, prefix + "/" + rest) == Hit
  {
    if DescendantOutcome(oracle, pattern, prefix) == Hit {
      var rest := DescendantWitness(oracle, pattern, prefix);
      MatchMeaning(oracle, pattern, prefix + "/" + rest);
    }
    if rest :| MatchOutcome(oracle, pattern, prefix + "/" + rest) == Hit {
      MatchMeaning(oracle, pattern, prefix + "/" + rest);
      DescendantNeverMissed(oracle, pattern, prefix, rest);
      WellFormedNeverBad(oracle, Split(pattern, '/'), Split(prefix, '/'), 0, 0);
    }
  }

  lemma {:induction false} WellFormedNeverBad(oracle: SegmentOracle, pattern: seq<string>, prefix: seq<string>,
                                              i: nat, j: nat)
    requires i <= |pattern| && j <= |prefix|
    requires forall k, name :: 0 <= k < |pattern| && pattern[k] != ANY_DEPTH ==> oracle(pattern[k], name) != Malformed
    ensures PossibleFrom(oracle, pattern, prefix, i, j) != BadPattern
    decreases |pattern| - i + |prefix| - j
  {
    if i < |pattern| && j < |prefix| {
      WellFormedNeverBad(oracle, pattern, prefix, i + 1, j);
      WellFormedNeverBad(oracle, pattern, prefix, i, j + 1);
      WellFormedNeverBad(oracle, pattern, prefix, i + 1, j + 1);
    }
  }

  // ----- The memoised searches -----

  ghost predicate InGrid(states: seq<State>, rows: nat, columns: nat)
  {
    forall k :: 0 <= k < |states| ==> states[k].0 <= rows && states[k].1 <= columns
  }

  ghost predicate Distinct(states: seq<State>)
  {
    forall a, b :: 0 <= a < b < |states| ==> states[a] != states[b]
  }

  /** Distinct states of a (rows+1) by (columns+1) grid cannot outnumber the grid. */
  lemma {:induction false} GridBound(states: seq<State>, rows: nat, columns: nat)
    requires InGrid(states, rows, columns) && Distinct(states)
    ensures |states| <= (rows + 1) * (columns + 1)
  {
    DistinctCount(states);
    SubsetCount((set s | s in states), Cells(rows + 1, columns + 1));
  }

  ghost function Row(row: nat, columns: nat): (cells: set<State>)
    ensures |cells| == columns
    ensures forall s :: s in cells <==> s.0 == row && s.1 < columns
  {
    if columns == 0 then {} else Row(row, columns - 1) + {(row, columns - 1)}
  }

  ghost function Cells(rows: nat, columns: nat): (cells: set<State>)
    ensures |cells| == rows * columns
    ensures forall s :: s in cells <==> s.0 < rows && s.1 < columns
  {
    if rows == 0 then {}
    else
      assert Cells(rows - 1, columns) !! Row(rows - 1, columns);
      assert rows * columns == (rows - 1) * columns + columns;
      Cells(rows - 1, columns) + Row(rows - 1, columns)
  }

  lemma {:induction false} DistinctCount(states: seq<State>)
    requires Distinct(states)
    ensures |set s | s in states| == |states|
  {
    if states != [] {
      var front := states[..|states| - 1];
      DistinctCount(front);
      assert (set s | s in states) == (set s | s in front) + {states[|states| - 1]};
    }
  }

  lemma SubsetCount(a: set<State>, b: set<State>)
    requires a <= b
    ensures |a| <= |b|
  {
    assert b == a + (b - a);
  }

  /** The closure `match` with the memo and seen maps it captures. */
  class MatchSearch {
    const oracle: SegmentOracle
    const pattern: seq<string>
    const candidate: seq<string>
    var memo: map<State, bool>
    var seen: set<State>
    ghost var pending: set<State>        // entered, not yet answered
    ghost var evaluated: seq<State>      // states evaluated rather than looked up

    ghost predicate InRange(s: State) { s.0 <= |pattern| && s.1 <= |candidate| }

    /** A state that was answered: its memo entry, or the missing one, is the right answer. */
    ghost predicate Settled(s: State)
      requires InRange(s)
      reads this
    {
      MatchFrom(oracle, pattern, candidate, s.0, s.1) == if s in memo && memo[s] then Hit else Miss
    }

    ghost predicate Valid()
      reads this
    {
      && (forall s :: s in seen ==> InRange(s) && (s in pending || Settled(s)))
      && (forall s :: s in memo ==> s in seen)
    }

    /** Each state was evaluated at most once, and only within the grid. */
    ghost predicate Frugal()
      reads this
    {
      && Distinct(evaluated) && InGrid(evaluated, |pattern|, |candidate|)
      && forall s :: s in evaluated ==> s in seen
    }

    constructor (oracle: SegmentOracle, pattern: seq<string>, candidate: seq<string>)
      ensures this.oracle == oracle && this.pattern == pattern && this.candidate == candidate
      ensures Valid() && Frugal() && pending == {} && evaluated == []
    {
      this.oracle, this.pattern, this.candidate := oracle, pattern, candidate;
      memo, seen, pending, evaluated := map[], {}, {}, [];
    }

    method Enter(current: State)
      requires Valid() && Frugal() && InRange(current) && current !in seen
      modifies this
      ensures Valid() && Frugal() && current !in memo
      ensures seen == old(seen) + {current} && pending == old(pending) + {current}
      ensures memo == old(memo) && evaluated == old(evaluated) + [current]
    {
      seen := seen + {current};
      evaluated := evaluated + [current];
      pending := pending + {current};
    }

    /** `memo[current] = matched`, the state's evaluation being over. */
    method Answer(current: State, matched: bool)
      requires Valid() && Frugal() && current in seen && current in pending
      requires MatchFrom(oracle, pattern, candidate, current.0, current.1) == if matched then Hit else Miss
      modifies this
      ensures Valid() && Frugal()
      ensures pending == old(pending) - {current} && seen == old(seen) && memo == old(memo)[current := matched]
    {
      memo := memo[current := matched];
      pending := pending - {current};
    }

    method Run(i: nat, j: nat) returns (r: Outcome)
      requires i <= |pattern| && j <= |candidate|
      requires Valid() && Frugal()
      requires forall s :: s in pending ==> s.0 + s.1 < i + j
      modifies this
      ensures r == MatchFrom(oracle, pattern, candidate, i, j)
      ensures r != BadPattern ==> Valid() && pending == old(pending)
      ensures Frugal() && old(seen) <= seen
      decreases |pattern| - i + |candidate| - j
    {
      var current: State := (i, j);
      if current in seen {
        return if current in memo && memo[current] then Hit else Miss;
      }
      Enter(current);
      if i == |pattern| {
        r := if j == |candidate| then Hit else Miss;
      } else if pattern[i] == ANY_DEPTH {
        r := Run(i + 1, j);
        if r == Miss && j < |candidate| {
          r := Run(i, j + 1);
        }
      } else if j == |candidate| {
        r := Miss;
      } else {
        match oracle(pattern[i], candidate[j])
        case Malformed => r := BadPattern;
        case Differs => r := Miss;
        case Matches => r := Run(i + 1, j + 1);
      }
      if r != BadPattern {
        Answer(current, r == Hit);
      }
    }
  }

  /** Match: the memo tables change neither the answer nor the errors, and bound the work. */
  method Match(oracle: SegmentOracle, pattern: string, candidate: string) returns (r: Outcome, ghost work: nat)
    ensures r == MatchOutcome(oracle, pattern, candidate)
    ensures work <= (|Split(pattern, '/')| + 1) * (|Split(candidate, '/')| + 1)
  {
    var search := new MatchSearch(oracle, Split(pattern, '/'), Split(candidate, '/'));
    r := search.Run(0, 0);
    work := |search.evaluated|;
    GridBound(search.evaluated, |search.pattern|, |search.candidate|);
  }

  /** The closure `possible` with the memo and seen maps it captures. */
  class DescendantSearch {
    const oracle: SegmentOracle
    const pattern: seq<string>
    const prefix: seq<string>
    var memo: map<State, bool>
    var seen: set<State>
    ghost var pending: set<State>
    ghost var evaluated: seq<State>

    ghost predicate InRange(s: State) { s.0 <= |pattern| && s.1 <= |prefix| }

    /** A state that was answered: its memo entry, or the missing one, is the right answer. */
    ghost predicate Settled(s: State)
      requires InRange(s)
      reads this
    {
      PossibleFrom(oracle, pattern, prefix, s.0, s.1) == if s in memo && memo[s] then Hit else Miss
    }

    ghost predicate Valid()
      reads this
    {
      && (forall s :: s in seen ==> InRange(s) && (s in pending || Settled(s)))
      && (forall s :: s in memo ==> s in seen)
    }

    /** Each state was evaluated at most once, and only within the grid. */
    ghost predicate Frugal()
      reads this
    {
      && Distinct(evaluated) && InGrid(evaluated, |pattern|, |prefix|)
      && forall s :: s in evaluated ==> s in seen
    }

    constructor (oracle: SegmentOracle, pattern: seq<string>, prefix: seq<string>)
      ensures this.oracle == oracle && this.pattern == pattern && this.prefix == prefix
      ensures Valid() && Frugal() && pending == {} && evaluated == []
    {
      this.oracle, this.pattern, this.prefix := oracle, pattern, prefix;
      memo, seen, pending, evaluated := map[], {}, {}, [];
    }

    method Enter(current: State)
      requires Valid() && Frugal() && InRange(current) && current !in seen
      modifies this
      ensures Valid() && Frugal() && current !in memo
      ensures seen == old(seen) + {current} && pending == old(pending) + {current}
      ensures memo == old(memo) && evaluated == old(evaluated) + [current]
    {
      seen := seen + {current};
      evaluated := evaluated + [current];
      pending := pending + {current};
    }

    /** `memo[current] = matched`, the state's evaluation being over. */
    method Answer(current: State, matched: bool)
      requires Valid() && Frugal() && current in seen && current in pending
      requires PossibleFrom(oracle, pattern, prefix, current.0, current.1) == if matched then Hit else Miss
      modifies this
      ensures Valid() && Frugal()
      ensures pending == old(pending) - {current} && seen == old(seen) && memo == old(memo)[current := matched]
    {
      memo := memo[current := matched];
      pending := pending - {current};
    }

    method Run(i: nat, j: nat) returns (r: Outcome)
      requires i <= |pattern| && j <= |prefix|
      requires Valid() && Frugal()
      requires forall s :: s in pending ==> s.0 + s.1 < i + j
      modifies this
      ensures r == PossibleFrom(oracle, pattern, prefix, i, j)
      ensures r != BadPattern ==> Valid() && pending == old(pending)
      ensures Frugal() && old(seen) <= seen
      decreases |pattern| - i + |prefix| - j
    {
      var current: State := (i, j);
      if current in seen {
        return if current in memo && memo[current] then Hit else Miss;
      }
      Enter(current);
      if j == |prefix| {
        r := if i < |pattern| then Hit else Miss;
      } else if i == |pattern| {
        r := Miss;
      } else if pattern[i] == ANY_DEPTH {
        r := Run(i + 1, j);
        if r == Miss {
          r := Run(i, j + 1);
        }
      } else {
        match oracle(pattern[i], prefix[j])
        case Malformed => r := BadPattern;
        case Differs => r := Miss;
        case Matches => r := Run(i + 1, j + 1);
      }
      if r != BadPattern {
        Answer(current, r == Hit);
      }
    }
  }

  method CouldMatchDescendant(oracle: SegmentOracle, pattern: string, prefix: string)
    returns (r: Outcome, ghost work: nat)
    ensures r == DescendantOutcome(oracle, pattern, prefix)
    ensures work <= (|Split(pattern, '/')| + 1) * (|Split(prefix, '/')| + 1)
  {
    var search := new DescendantSearch(oracle, Split(pattern, '/'), Split(prefix, '/'));
    r := search.Run(0, 0);
    work := |search.evaluated|;
    GridBound(search.evaluated, |search.pattern|, |search.prefix|);
  }
}
