/** A small deployment, for showing what can happen. */
module Example {
  import opened Prelude
  import opened Interest
  import opened Accounts
  import opened Steps
  import opened Invariants

  function Owner(): Key {
    DefaultKey()
  }

  function Stranger(): (key: Key)
    ensures key != Owner()
  {
    var key := seq(32, i => 1);
    assert key[0] != Owner()[0];
    key
  }

  function Address(): VaultKey {
    VaultKey(Owner(), DefaultKey())
  }

  /** One verified vault with a deposit, and 1000 units to lend. */
  function OneVault(index: u128, ltvBps: u16, thresholdBps: u16, deposited: u64): State {
    State(Pool(1000, 0, ltvBps, thresholdBps, 500, index, 0, 0, 0),
          Protocol(Owner(), false, 1, deposited), 1000,
          map[Address() := Vault(Owner(), DefaultKey(), Sol, deposited, Verified, 1, false)],
          map[], map[], map[], map[])
  }

  lemma OneVaultIsConsistent(index: u128, ltvBps: u16, thresholdBps: u16, deposited: u64)
    requires RAY <= index && ValidBps(ltvBps, thresholdBps, 500)
    ensures Inv(OneVault(index, ltvBps, thresholdBps, deposited))
  {
  }

  /** One verified Bitcoin vault attested to hold a bitcoin, and 1000 units to lend. */
  function OneBtcVault(ltvBps: u16, thresholdBps: u16): State {
    var address: seq<u8> := ['t' as int, 'b' as int, '1' as int, 'q' as int];
    State(Pool(1000, 0, ltvBps, thresholdBps, 500, RAY, 0, 0, 0),
          Protocol(Owner(), false, 1, 0), 1000, map[], map[],
          map[Address() := BtcVault(Owner(), DefaultKey(), address, 100_000_000, 0, Verified, 1, false, 0,
                                    DefaultKey())],
          map[Address() := Attestation(address, 100_000_000, 0, 0, 1, Owner())], map[])
  }

  lemma OneBtcVaultIsConsistent(ltvBps: u16, thresholdBps: u16)
    requires ValidBps(ltvBps, thresholdBps, 500)
    ensures Inv(OneBtcVault(ltvBps, thresholdBps))
  {
  }
}
