/** The stake vault: validators lock lamports in one account and take them back. */
module Vault {
  import opened Bytes
  import opened Errors

  /** The vault's balance, and the stake each registered validator's account records. */
  datatype Stakes = Stakes(balance: nat, recorded: map<Key, u64>)

  /** `minStake` is the configured minimum; `funded` says whether the validator can pay. Anyone may
      send the vault lamports. */
  datatype StakeOp =
    | Register(validator: Key, amount: u64, minStake: u64, funded: bool)
    | Unstake(validator: Key)
    | Donate(gift: nat)

  /** The runtime lets no account end a transaction holding less than the rent-exempt minimum `rent`,
      unless it holds nothing. */
  predicate Holdable(balance: nat, rent: nat) {
    balance == 0 || balance >= rent
  }

  function Exec(rent: nat, s: Stakes, op: StakeOp): Result<Stakes, Error> {
    match op
    case Register(validator, amount, minStake, funded) =>
      :- Need(validator !in s.recorded, AccountInUse);
      :- Need(amount >= minStake, InsufficientStake);
      :- Need(funded && Holdable(s.balance + amount, rent), TransferFailed);
      Ok(Stakes(s.balance + amount, s.recorded[validator := amount]))
    case Unstake(validator) =>
      :- Need(validator in s.recorded, AccountMissing);
      :- Need(s.balance >= s.recorded[validator] && Holdable(s.balance - s.recorded[validator], rent), TransferFailed);
      Ok(Stakes(s.balance - s.recorded[validator], s.recorded - {validator}))
    case Donate(gift) =>
      :- Need(Holdable(s.balance + gift, rent), TransferFailed);
      Ok(s.(balance := s.balance + gift))
  }

  function Step(rent: nat, s: Stakes, op: StakeOp): Stakes {
    var r := Exec(rent, s, op);
    if r.Ok? then r.value else s
  }

  const EMPTY := Stakes(0, map[])

  function Run(rent: nat, ops: seq<StakeOp>): Stakes {
    if ops == [] then EMPTY else Step(rent, Run(rent, ops[..|ops| - 1]), ops[|ops| - 1])
  }

  // --- Totals ---

  ghost function Total(recorded: map<Key, u64>): nat {
    if recorded == map[] then 0
    else
      var k :| k in recorded;
      recorded[k] + Total(recorded - {k})
  }

  /** The total does not depend on the order the stakes are added up in. */
  lemma {:induction false} TotalWithout(recorded: map<Key, u64>, k: Key)
    requires k in recorded
    ensures Total(recorded) == recorded[k] + Total(recorded - {k})
    decreases |recorded|
  {
    var first :| first in recorded && Total(recorded) == recorded[first] + Total(recorded - {first});
    if first != k {
      TotalWithout(recorded - {first}, k);
      TotalWithout(recorded - {k}, first);
      assert recorded - {first} - {k} == recorded - {k} - {first};
    }
  }

  lemma TotalWith(recorded: map<Key, u64>, k: Key, amount: u64)
    requires k !in recorded
    ensures Total(recorded[k := amount]) == Total(recorded) + amount
  {
    TotalWithout(recorded[k := amount], k);
    assert recorded[k := amount] - {k} == recorded;
  }

  /** What has been given to the vault outside staking. */
  function Donated(rent: nat, ops: seq<StakeOp>): nat {
    if ops == [] then 0
    else
      var front, last := ops[..|ops| - 1], ops[|ops| - 1];
      Donated(rent, front) + (if last.Donate? && Exec(rent, Run(rent, front), last).Ok? then last.gift else 0)
  }

  lemma StepConserves(rent: nat, s: Stakes, op: StakeOp)
    requires Total(s.recorded) <= s.balance
    ensures Step(rent, s, op).balance - Total(Step(rent, s, op).recorded)
            == s.balance - Total(s.recorded) + (if op.Donate? && Exec(rent, s, op).Ok? then op.gift else 0)
  {
    match op {
      case Register(validator, amount, _, _) =>
        if validator !in s.recorded {
          TotalWith(s.recorded, validator, amount);
        }
      case Unstake(validator) =>
        if validator in s.recorded {
          TotalWithout(s.recorded, validator);
        }
      case Donate(_) =>
    }
  }

  /** Over any run the vault holds exactly the recorded stakes and the donations, so no validator's
      stake is ever paid out to another. */
  lemma {:induction false} VaultConserves(rent: nat, ops: seq<StakeOp>)
    ensures Run(rent, ops).balance == Total(Run(rent, ops).recorded) + Donated(rent, ops)
  {
    if ops != [] {
      VaultConserves(rent, ops[..|ops| - 1]);
      StepConserves(rent, Run(rent, ops[..|ops| - 1]), ops[|ops| - 1]);
    }
  }

  /** Unstaking pays in full exactly when the validator is registered and the others' stakes with the
      donations are nothing or reach the rent minimum: the vault never lacks the stake itself. */
  lemma {:induction false} StakePayableExactly(rent: nat, ops: seq<StakeOp>, validator: Key)
    ensures var now := Run(rent, ops);
            Exec(rent, now, Unstake(validator)).Ok?
            <==> validator in now.recorded && Holdable(Total(now.recorded - {validator}) + Donated(rent, ops), rent)
  {
    VaultConserves(rent, ops);
    var now := Run(rent, ops);
    if validator in now.recorded {
      TotalWithout(now.recorded, validator);
    }
  }

  /** In particular beside another validator whose stake alone reaches the minimum, and when nothing
      else is in the vault. */
  lemma {:induction false} StakePayableBeside(rent: nat, ops: seq<StakeOp>, validator: Key, other: Key)
    requires var now := Run(rent, ops);
             && validator in now.recorded
             && ((now.recorded.Keys == {validator} && Donated(rent, ops) == 0)
                 || (other in now.recorded && other != validator && now.recorded[other] >= rent))
    ensures Exec(rent, Run(rent, ops), Unstake(validator)).Ok?
  {
    var rest := Run(rent, ops).recorded - {validator};
    StakePayableExactly(rent, ops, validator);
    if other in rest {
      TotalWithout(rest, other);
    } else {
      assert rest == map[];
    }
  }

  /** A stake can be held back: 1000000 lamports beside 500000, with the minimum at 890880. */
  lemma StakeHeldBack(a: Key, b: Key)
    requires a != b
    ensures var ops := [Register(a, 1_000_000, 0, true), Register(b, 500_000, 0, true)];
            a in Run(890_880, ops).recorded && Exec(890_880, Run(890_880, ops), Unstake(a)).Err?
  {
    var ops := [Register(a, 1_000_000, 0, true), Register(b, 500_000, 0, true)];
    var first := Stakes(1_000_000, map[a := 1_000_000]);
    assert ops[..1][..0] == [] && ops[..1][0] == ops[0];
    assert Run(890_880, ops[..1]) == first;
    assert Run(890_880, ops) == Stakes(1_500_000, map[a := 1_000_000, b := 500_000]);
  }

  class StakeVault {
    const rent: nat
    var balance: nat
    var recorded: map<Key, u64>

    constructor (rent: nat)
      ensures State() == EMPTY && this.rent == rent
    {
      this.rent, balance, recorded := rent, 0, map[];
    }

    function State(): Stakes
      reads this
    {
      Stakes(balance, recorded)
    }

    /** `register_validator`: the transfer first, then the validator's account. */
    method RegisterValidator(validator: Key, amount: u64, minStake: u64, funded: bool) returns (r: Outcome<Error>)
      modifies this
      ensures State() == Step(rent, old(State()), Register(validator, amount, minStake, funded))
      ensures r.Pass? <==> Exec(rent, old(State()), Register(validator, amount, minStake, funded)).Ok?
    {
      if validator in recorded {
        return Fail(AccountInUse);
      }
      if amount < minStake {
        return Fail(InsufficientStake);
      }
      if !funded || !Holdable(balance + amount, rent) {
        return Fail(TransferFailed);
      }
      balance := balance + amount;
      recorded := recorded[validator := amount];
      r := Pass;
    }

    /** `unstake_validator`: pay the recorded stake and close the validator's account. */
    method UnstakeValidator(validator: Key) returns (r: Outcome<Error>)
      modifies this
      ensures State() == Step(rent, old(State()), Unstake(validator))
      ensures r.Pass? <==> Exec(rent, old(State()), Unstake(validator)).Ok?
    {
      if validator !in recorded {
        return Fail(AccountMissing);
      }
      var stake := recorded[validator];
      if balance < stake || !Holdable(balance - stake, rent) {
        return Fail(TransferFailed);
      }
      balance := balance - stake;
      recorded := recorded - {validator};
      r := Pass;
    }
  }
}
