/**
  The pure helpers of the program: a member's voting weight
  (`calculate_voting_weight`), the total voting power recorded as a
  proposal's snapshot (`calculate_total_voting_power`), and the pass rule
  that `execute_proposal` applies.
 */
module Voting {
  import opened Arith
  import opened Accounts

  /**
    `calculate_voting_weight`: presence share times competence share, in
    fixed point, `p * c * SCALING_FACTOR / (P * C)` with u128 saturating
    products and 0 when either total is 0.
   */
  function VotingWeight(member: Member, state: State): (r: u128)
    ensures state.totalPresence == 0 || state.totalCompetence == 0 ==> r == 0
  {
    if state.totalPresence == 0 || state.totalCompetence == 0 then 0
    else
      ProductFitsU128(member.presenceScore, member.competenceScore);
      ProductFitsU128(state.totalPresence, state.totalCompetence);
      var numerator := SaturatingMulU128(
        SaturatingMulU128(member.presenceScore, member.competenceScore), SCALING_FACTOR);
      var denominator := SaturatingMulU128(state.totalPresence, state.totalCompetence);
      if denominator == 0 then 0
      else
        QuotientAtMostDividend(numerator, denominator);
        numerator / denominator
  }

  /**
    `calculate_total_voting_power`: `SCALING_FACTOR` whenever both totals
    are non-zero, 0 otherwise; it does not add up the members' weights.
   */
  function TotalVotingPower(state: State): (r: u128)
    ensures r == 0 <==> state.totalPresence == 0 || state.totalCompetence == 0
    ensures r == 0 || r == SCALING_FACTOR
  {
    if state.totalPresence == 0 || state.totalCompetence == 0 then 0 else SCALING_FACTOR
  }

  /**
    The decision of `execute_proposal`: a Critical proposal needs more than
    half of the snapshot (integer halving), an Operational one more votes
    for than against.
   */
  function ProposalPasses(p: Proposal): bool
  {
    match p.proposalType
    case Critical => p.votesFor > p.totalPowerSnapshot / 2
    case Operational => p.votesFor > p.votesAgainst
  }

  // ---------------------------------------------------------------------------
  // Arithmetic facts
  // ---------------------------------------------------------------------------

  lemma MulMonotone(a: nat, b: nat, c: nat, d: nat)
    requires a <= c && b <= d
    ensures a * b <= c * d
  {
    assert a * b <= c * b;
    assert c * b <= c * d;
  }

  /** Two u64 values multiply without leaving u128. */
  lemma ProductFitsU128(a: u64, b: u64)
    ensures a * b <= U128_MAX
  {
    MulMonotone(a, b, U64_MAX, U64_MAX);
  }

  /** Euclidean division by a positive divisor is the floor of the quotient. */
  lemma FloorDiv(n: nat, d: nat)
    requires d > 0
    ensures (n / d) * d <= n < (n / d + 1) * d
  {
  }

  // ---------------------------------------------------------------------------
  // Properties of the voting weight
  // ---------------------------------------------------------------------------

  /**
    When the numerator does not saturate, the weight is exactly the floor of
    `p * c * SCALING_FACTOR / (P * C)`.
   */
  lemma WeightIsFloorOfShareProduct(member: Member, state: State)
    requires state.totalPresence > 0 && state.totalCompetence > 0
    requires member.presenceScore * member.competenceScore * SCALING_FACTOR <= U128_MAX
    ensures var n := member.presenceScore * member.competenceScore * SCALING_FACTOR;
            var d := state.totalPresence * state.totalCompetence;
            VotingWeight(member, state) * d <= n < (VotingWeight(member, state) + 1) * d
  {
    var p: nat, c: nat := member.presenceScore, member.competenceScore;
    var P: nat, C: nat := state.totalPresence, state.totalCompetence;
    ProductFitsU128(member.presenceScore, member.competenceScore);
    ProductFitsU128(state.totalPresence, state.totalCompetence);
    MulMonotone(1, 1, P, C);
    assert SaturatingMulU128(p, c) == p * c;
    assert SaturatingMulU128(p * c, SCALING_FACTOR) == p * c * SCALING_FACTOR;
    assert SaturatingMulU128(P, C) == P * C;
    FloorDiv(p * c * SCALING_FACTOR, P * C);
  }

  /** A quotient is at most `k` when the dividend is at most `k` divisors. */
  lemma QuotientAtMost(n: nat, d: nat, k: nat)
    requires d > 0 && n <= d * k
    ensures n / d <= k
  {
    FloorDiv(n, d);
    if n / d > k {
      MulMonotone(k + 1, d, n / d, d);
    }
  }

  /** A positive divisor never makes the quotient larger than the dividend. */
  lemma QuotientAtMostDividend(n: nat, d: nat)
    requires d > 0
    ensures n / d <= n
  {
    MulMonotone(1, n, d, n);
    QuotientAtMost(n, d, n);
  }

  /**
    A lone holder of both totals whose product `p·c·SCALING_FACTOR`
    saturates u128 weighs less than the snapshot `SCALING_FACTOR`.
   */
  lemma SaturatedLoneHolderWeighsLess(member: Member, state: State)
    requires member.presenceScore == state.totalPresence > 0
    requires member.competenceScore == state.totalCompetence > 0
    requires member.presenceScore * member.competenceScore * SCALING_FACTOR > U128_MAX
    ensures VotingWeight(member, state) < SCALING_FACTOR
  {
    var p: nat, c: nat := member.presenceScore, member.competenceScore;
    ProductFitsU128(member.presenceScore, member.competenceScore);
    MulMonotone(1, 1, p, c);
    var d: nat := p * c;
    assert SaturatingMulU128(p, c) == d;
    assert SaturatingMulU128(d, SCALING_FACTOR) == U128_MAX;
    QuotientBelow(U128_MAX, d, SCALING_FACTOR);
  }

  /** A dividend below `d * k` gives a quotient below `k`. */
  lemma QuotientBelow(n: nat, d: nat, k: nat)
    requires d > 0 && n < d * k
    ensures n / d < k
  {
    FloorDiv(n, d);
    if n / d >= k {
      MulMonotone(k, d, n / d, d);
    }
  }

  /**
    A member whose scores are within the totals never weighs more than
    `SCALING_FACTOR`, saturation included.
   */
  lemma WeightAtMostScale(member: Member, state: State)
    requires member.presenceScore <= state.totalPresence
    requires member.competenceScore <= state.totalCompetence
    ensures VotingWeight(member, state) <= SCALING_FACTOR
  {
    var p: nat, c: nat := member.presenceScore, member.competenceScore;
    var P: nat, C: nat := state.totalPresence, state.totalCompetence;
    if P > 0 && C > 0 {
      ProductFitsU128(member.presenceScore, member.competenceScore);
      ProductFitsU128(state.totalPresence, state.totalCompetence);
      MulMonotone(p, c, P, C);
      MulMonotone(1, 1, P, C);
      var pc: nat := p * c;
      var d: nat := P * C;
      var n: nat := SaturatingMulU128(pc, SCALING_FACTOR);
      assert n <= pc * SCALING_FACTOR;
      MulMonotone(pc, SCALING_FACTOR, d, SCALING_FACTOR);
      QuotientAtMost(n, d, SCALING_FACTOR);
    }
  }

  /** A member with no presence or no competence has no weight. */
  lemma WeightZeroWithoutScore(member: Member, state: State)
    requires member.presenceScore == 0 || member.competenceScore == 0
    ensures VotingWeight(member, state) == 0
  {
    if state.totalPresence > 0 && state.totalCompetence > 0 {
      WeightIsFloorOfShareProduct(member, state);
    }
  }

  /**
    A member holding every point of both scores weighs exactly the snapshot
    value `TotalVotingPower`, when the numerator does not saturate.
   */
  lemma LoneHolderWeighsTotalPower(member: Member, state: State)
    requires member.presenceScore == state.totalPresence > 0
    requires member.competenceScore == state.totalCompetence > 0
    requires member.presenceScore * member.competenceScore * SCALING_FACTOR <= U128_MAX
    ensures VotingWeight(member, state) == TotalVotingPower(state) == SCALING_FACTOR
  {
    var d := state.totalPresence * state.totalCompetence;
    MulMonotone(1, 1, state.totalPresence, state.totalCompetence);
    WeightIsFloorOfShareProduct(member, state);
    var w := VotingWeight(member, state);
    if w < SCALING_FACTOR {
      MulMonotone(w + 1, d, SCALING_FACTOR, d);
      assert false;
    } else if w > SCALING_FACTOR {
      MulMonotone(SCALING_FACTOR + 1, d, w, d);
      assert false;
    }
  }

  /** No single weight exceeds the snapshot of total voting power. */
  lemma WeightAtMostTotalPower(member: Member, state: State)
    requires member.presenceScore <= state.totalPresence
    requires member.competenceScore <= state.totalCompetence
    ensures VotingWeight(member, state) <= TotalVotingPower(state)
  {
    WeightAtMostScale(member, state);
  }

  /**
    With the three genesis members and nothing else, each weighs
    `SCALING_FACTOR / 9` (rounded down).
   */
  lemma GenesisMemberWeight(member: Member, state: State)
    requires member.presenceScore == GENESIS_PRESENCE
    requires member.competenceScore == GENESIS_COMPETENCE
    requires state.totalPresence == 3 * GENESIS_PRESENCE
    requires state.totalCompetence == 3 * GENESIS_COMPETENCE
    ensures VotingWeight(member, state) == 111_111_111 == SCALING_FACTOR / 9
  {
    assert GENESIS_PRESENCE * GENESIS_COMPETENCE * SCALING_FACTOR
        == 30_000_000_000_000_000_000_000_000_000;
    assert 3 * GENESIS_PRESENCE * (3 * GENESIS_COMPETENCE) == 270_000_000_000_000_000_000;
    WeightIsFloorOfShareProduct(member, state);
  }

  // ---------------------------------------------------------------------------
  // Properties of the pass rule
  // ---------------------------------------------------------------------------

  /**
    The Critical rule is a strict absolute majority: it passes exactly when
    twice the votes for exceed the snapshot, so exactly half fails.
   */
  lemma CriticalIsStrictMajority(p: Proposal)
    requires p.proposalType == Critical
    ensures ProposalPasses(p) <==> 2 * p.votesFor > p.totalPowerSnapshot
  {
  }

  /** The Operational rule is a strict relative majority: a tie fails. */
  lemma OperationalTieFails(p: Proposal)
    requires p.proposalType == Operational
    ensures ProposalPasses(p) <==> p.votesFor > p.votesAgainst
    ensures p.votesFor == p.votesAgainst ==> !ProposalPasses(p)
  {
  }
}
