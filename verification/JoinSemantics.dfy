/**
 * What a join means: SQL join conditions, the nested-loop join, and how the comparison the hash table makes on its
 * serialized keys, where NULL is a sentinel value, relates to them (src/execution/join_hashtable.cpp:500-620).
 */
module JoinSemantics {
  import opened Common

  type Key = seq<Option<int>>

  datatype Comparison = Equal | NotEqual | GreaterThan | GreaterThanOrEqual | LessThan | LessThanOrEqual

  datatype Condition = Condition(comparison: Comparison, nullValuesAreEqual: bool)

  datatype JoinType = Inner | Left | Right | Outer | Semi | Anti | Mark | Single {
    predicate IsLeftOuter() {
      Left? || Outer?
    }

    predicate IsRightOuter() {
      Right? || Outer?
    }
  }

  // The integer that stands for NULL in a serialized tuple; values are above it (src/common/limits.cpp:105-106)
  const NULL_VALUE: int := -0x8000_0000_0000_0000

  predicate Compare(c: Comparison, l: int, r: int) {
    match c
    case Equal => l == r
    case NotEqual => l != r
    case GreaterThan => l > r
    case GreaterThanOrEqual => l >= r
    case LessThan => l < r
    case LessThanOrEqual => l <= r
  }

  /** The comparisons are one order: exactly one of less, equal and greater holds, and the others say what they name. */
  lemma ComparisonsAgree(l: int, r: int)
    ensures Compare(Equal, l, l) && Compare(LessThan, l, l + 1)
    ensures Compare(LessThan, l, r) <==> Compare(GreaterThan, r, l)
    ensures !(Compare(LessThan, l, r) && Compare(Equal, l, r)) && !(Compare(GreaterThan, l, r) && Compare(Equal, l, r))
    ensures Compare(LessThan, l, r) || Compare(Equal, l, r) || Compare(GreaterThan, l, r)
    ensures Compare(NotEqual, l, r) <==> !Compare(Equal, l, r)
    ensures Compare(LessThanOrEqual, l, r) <==> Compare(LessThan, l, r) || Compare(Equal, l, r)
    ensures Compare(GreaterThanOrEqual, l, r) <==> Compare(GreaterThan, l, r) || Compare(Equal, l, r)
    ensures forall m: int :: Compare(LessThan, l, r) && Compare(LessThan, r, m) ==> Compare(LessThan, l, m)
  {
  }

  /** The SQL meaning of one join condition; an unknown comparison does not hold. */
  predicate Holds(c: Condition, l: Option<int>, r: Option<int>) {
    if l.Some? && r.Some? then Compare(c.comparison, l.value, r.value)
    else c.nullValuesAreEqual && l.None? && r.None?
  }

  predicate KeysMatch(cs: seq<Condition>, l: Key, r: Key)
    requires |l| == |cs| == |r|
  {
    forall i | 0 <= i < |cs| :: Holds(cs[i], l[i], r[i])
  }

  /** Equalities match exactly equal keys, and NULL only in the columns that treat NULLs as equal. */
  lemma EqualKeysMatch(cs: seq<Condition>, l: Key, r: Key)
    requires |l| == |cs| == |r| && forall i | 0 <= i < |cs| :: cs[i].comparison.Equal?
    ensures KeysMatch(cs, l, r) <==> l == r && forall i | 0 <= i < |cs| :: l[i].None? ==> cs[i].nullValuesAreEqual
  {
    if KeysMatch(cs, l, r) {
      forall i | 0 <= i < |cs| ensures l[i] == r[i] {
        assert Holds(cs[i], l[i], r[i]);
      }
    }
  }

  /** The first `eq` conditions are the equalities, and only equalities may treat NULLs as equal. */
  ghost predicate ConditionsOk(cs: seq<Condition>, eq: nat) {
    && 0 < eq <= |cs|
    && forall i | 0 <= i < |cs| :: (cs[i].comparison.Equal? <==> i < eq) && (cs[i].nullValuesAreEqual ==> i < eq)
  }

  predicate InRange(k: Key, n: nat) {
    |k| == n && forall i | 0 <= i < |k| :: k[i].Some? ==> k[i].value > NULL_VALUE
  }

  /** Whether a key survives the NULL filter. */
  predicate Kept(cs: seq<Condition>, k: Key)
    requires |k| == |cs|
  {
    forall i | 0 <= i < |cs| :: !cs[i].nullValuesAreEqual ==> k[i].Some?
  }

  function Stored(v: Option<int>): int {
    if v.None? then NULL_VALUE else v.value
  }

  function StoredKey(k: Key): (stored: seq<int>)
    ensures |stored| == |k|
  {
    seq(|k|, i requires 0 <= i < |k| => Stored(k[i]))
  }

  /** The comparison of a probe value with a serialized one. */
  predicate Gathers(c: Condition, l: Option<int>, stored: int) {
    if l.None? then stored == NULL_VALUE else Compare(c.comparison, l.value, stored)
  }

  predicate GathersAll(cs: seq<Condition>, l: Key, stored: seq<int>)
    requires |l| == |cs| == |stored|
  {
    forall i | 0 <= i < |cs| :: Gathers(cs[i], l[i], stored[i])
  }

  predicate RejectsNull(c: Condition) {
    c.comparison.Equal? || c.comparison.LessThan? || c.comparison.LessThanOrEqual?
  }

  lemma GatherIsHolds(c: Condition, l: Option<int>, r: Option<int>)
    requires l.Some? ==> l.value > NULL_VALUE
    requires r.Some? ==> r.value > NULL_VALUE
    requires c.nullValuesAreEqual ==> c.comparison.Equal?
    requires !c.nullValuesAreEqual ==> l.Some?
    requires !c.nullValuesAreEqual && r.None? ==> RejectsNull(c)
    ensures Gathers(c, l, Stored(r)) <==> Holds(c, l, r)
  {
  }

  /** On keys that survive the NULL filter on both sides, comparing serialized keys decides the join conditions. */
  lemma GatherIsMatch(cs: seq<Condition>, eq: nat, l: Key, r: Key)
    requires ConditionsOk(cs, eq) && InRange(l, |cs|) && InRange(r, |cs|) && Kept(cs, l)
    requires Kept(cs, r) || forall i | 0 <= i < |cs| :: RejectsNull(cs[i])
    ensures GathersAll(cs, l, StoredKey(r)) <==> KeysMatch(cs, l, r)
  {
    forall i | 0 <= i < |cs| ensures Gathers(cs[i], l[i], StoredKey(r)[i]) <==> Holds(cs[i], l[i], r[i]) {
      GatherIsHolds(cs[i], l[i], r[i]);
    }
  }

  /** Right and full outer joins keep build keys that hold NULL: are they compared as SQL demands? */
  ghost predicate DecidesWithNulls(cs: seq<Condition>) {
    forall l: Key, r: Key | InRange(l, |cs|) && InRange(r, |cs|) && Kept(cs, l) ::
      GathersAll(cs, l, StoredKey(r)) <==> KeysMatch(cs, l, r)
  }

  function SatisfyingLeft(c: Condition): int {
    if c.comparison.GreaterThan? || c.comparison.NotEqual? then 1 else 0
  }

  function SatisfyingRight(c: Condition): int {
    if c.comparison.LessThan? then 1 else 0
  }

  /** A probe key and a build key, NULL in column `x`, that meet every other condition. */
  function ProbeKey(cs: seq<Condition>): Key {
    seq(|cs|, i requires 0 <= i < |cs| => Some(SatisfyingLeft(cs[i])))
  }

  function NullKey(cs: seq<Condition>, x: nat): Key {
    seq(|cs|, i requires 0 <= i < |cs| => if i == x then None else Some(SatisfyingRight(cs[i])))
  }

  /** A condition that the sentinel satisfies lets a NULL build key match. */
  lemma NullBuildKeyMatches(cs: seq<Condition>, eq: nat, x: nat)
    requires ConditionsOk(cs, eq) && x < |cs| && !RejectsNull(cs[x])
    ensures var l, r := ProbeKey(cs), NullKey(cs, x);
            && InRange(l, |cs|) && InRange(r, |cs|) && Kept(cs, l)
            && GathersAll(cs, l, StoredKey(r)) && !KeysMatch(cs, l, r)
  {
    assert !Holds(cs[x], ProbeKey(cs)[x], NullKey(cs, x)[x]);
  }

  /**
   * Serialized comparison agrees with SQL on build keys that hold NULL exactly when every condition rejects the
   * sentinel.
   */
  lemma DecidesWithNullsIff(cs: seq<Condition>, eq: nat)
    requires ConditionsOk(cs, eq)
    ensures DecidesWithNulls(cs) <==> forall i | 0 <= i < |cs| :: RejectsNull(cs[i])
  {
    if x :| 0 <= x < |cs| && !RejectsNull(cs[x]) {
      NullBuildKeyMatches(cs, eq, x);
    } else {
      forall l: Key, r: Key | InRange(l, |cs|) && InRange(r, |cs|) && Kept(cs, l)
        ensures GathersAll(cs, l, StoredKey(r)) <==> KeysMatch(cs, l, r)
      {
        GatherIsMatch(cs, eq, l, r);
      }
    }
  }

  /** A build key as the table compares it: NULL is the sentinel in every column that does not treat NULLs as equal. */
  function SentinelKey(cs: seq<Condition>, k: Key): (k': Key)
    requires |k| == |cs|
    ensures |k'| == |cs|
  {
    seq(|k|, i requires 0 <= i < |k| =>
      if k[i].None? && !cs[i].nullValuesAreEqual then Some(NULL_VALUE) else k[i])
  }

  lemma SentinelHolds(c: Condition, l: Option<int>, r: Option<int>)
    requires l.Some? ==> l.value > NULL_VALUE
    requires r.Some? ==> r.value > NULL_VALUE
    requires c.nullValuesAreEqual ==> c.comparison.Equal?
    ensures var r' := if r.None? && !c.nullValuesAreEqual then Some(NULL_VALUE) else r;
      && (Holds(c, l, r') <==> (c.nullValuesAreEqual || l.Some?) && Gathers(c, l, Stored(r)))
      && (RejectsNull(c) ==> (Holds(c, l, r') <==> Holds(c, l, r)))
  {
  }

  /** What the table compares, for all conditions; where each of them rejects the sentinel that is what SQL asks for. */
  lemma SentinelMatches(cs: seq<Condition>, eq: nat, l: Key, r: Key)
    requires ConditionsOk(cs, eq) && InRange(l, |cs|) && InRange(r, |cs|)
    ensures KeysMatch(cs, l, SentinelKey(cs, r)) <==> Kept(cs, l) && GathersAll(cs, l, StoredKey(r))
    ensures (forall i | 0 <= i < |cs| :: RejectsNull(cs[i])) ==>
            (KeysMatch(cs, l, SentinelKey(cs, r)) <==> KeysMatch(cs, l, r))
  {
    var r' := SentinelKey(cs, r);
    forall i | 0 <= i < |cs|
      ensures Holds(cs[i], l[i], r'[i]) <==>
              (cs[i].nullValuesAreEqual || l[i].Some?) && Gathers(cs[i], l[i], StoredKey(r)[i])
      ensures RejectsNull(cs[i]) ==> (Holds(cs[i], l[i], r'[i]) <==> Holds(cs[i], l[i], r[i]))
    {
      SentinelHolds(cs[i], l[i], r[i]);
    }
  }

  /** Matching keys agree on the equality columns, which are all the hash looks at. */
  lemma MatchAgreesOnHashedColumns(cs: seq<Condition>, eq: nat, l: Key, r: Key)
    requires ConditionsOk(cs, eq) && InRange(l, |cs|) && InRange(r, |cs|)
    requires GathersAll(cs, l, StoredKey(r))
    ensures l[..eq] == r[..eq]
  {
    forall i | 0 <= i < eq ensures l[i] == r[i] {
      assert Gathers(cs[i], l[i], StoredKey(r)[i]);
    }
  }

  /** A key dropped by the NULL filter matches nothing. */
  lemma DroppedNeverMatches(cs: seq<Condition>, l: Key, r: Key)
    requires |l| == |cs| == |r|
    requires !Kept(cs, l) || !Kept(cs, r)
    ensures !KeysMatch(cs, l, r)
  {
    var x :| 0 <= x < |cs| && !cs[x].nullValuesAreEqual && (l[x].None? || r[x].None?);
    assert !Holds(cs[x], l[x], r[x]);
  }
}
