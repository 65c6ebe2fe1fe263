/** The wallet table of the crypto checkout: one configuration per
    supported coin, looked up by coin type, and the list of all of them. */
module CryptoWallets {
  import opened Wrappers

  /** `CryptoConfig`. */
  datatype CryptoConfig = CryptoConfig(name: string, symbol: string, network: string, address: string, coingeckoId: string)

  /** One element of `getAvailableCryptos()`. */
  datatype CryptoOption = CryptoOption(coin: string, config: CryptoConfig)

  /** The members of the `CryptoType` union. */
  const CryptoTypes: set<string> := {"BTC", "ETH", "USDT_TRC20", "USDT_ERC20", "USDT_SOL"}

  const EthereumAddress := "0x9fe135eb7DFf3F57929d8a8585D80ca39dD1427d"

  /** `CRYPTO_WALLETS`, its entries in the order they are written, which is
      the order `Object.entries` lists them in. */
  const Wallets: seq<(string, CryptoConfig)> := [
    ("BTC", CryptoConfig("Bitcoin", "BTC", "Bitcoin mainnet",
                         "bc1pevk65wxl7cgan87ve2zdxf0y03hk6dnmjjalx34g379dqtdlgh4q3umq86", "bitcoin")),
    ("ETH", CryptoConfig("Ethereum", "ETH", "Ethereum / ERC-20", EthereumAddress, "ethereum")),
    ("USDT_ERC20", CryptoConfig("USDT", "USDT", "USDT ERC-20", EthereumAddress, "tether")),
    ("USDT_TRC20", CryptoConfig("USDT", "USDT", "USDT TRC-20", "TBgPfv3yWeaQ7MLwvN7Jz86TNCweVZsyo3", "tether")),
    ("USDT_SOL", CryptoConfig("USDT", "USDT", "USDT SOL (Solana)", "U5FU5PqJnJ4ePqBCGbk8LC6WqJzSHBHZHT3PQQbVHAE", "tether"))
  ]

  /** `CRYPTO_WALLETS[coin]`: the entry with that key, if any. */
  function Lookup(entries: seq<(string, CryptoConfig)>, coin: string): (r: Option<CryptoConfig>)
    ensures r.Some? ==> (coin, r.value) in entries
    ensures r.None? <==> forall i :: 0 <= i < |entries| ==> entries[i].0 != coin
  {
    if entries == [] then None
    else if entries[0].0 == coin then Some(entries[0].1)
    else Lookup(entries[1..], coin)
  }

  /** `getCryptoConfig(coin)`; the coin is any string at run time, and one
      outside the table throws. */
  function GetCryptoConfig(coin: string): (r: Result<CryptoConfig, string>)
    ensures r.Success? ==> (coin, r.value) in Wallets
    ensures r.Failure? ==> r.error == "Unknown crypto type: " + coin
  {
    var config := Lookup(Wallets, coin);
    if config.None? then Failure("Unknown crypto type: " + coin) else Success(config.value)
  }

  /** `getAvailableCryptos()`: every entry of the table, in order. */
  function GetAvailableCryptos(): (r: seq<CryptoOption>)
    ensures |r| == |Wallets|
    ensures forall i :: 0 <= i < |r| ==> r[i] == CryptoOption(Wallets[i].0, Wallets[i].1)
  {
    seq(|Wallets|, i requires 0 <= i < |Wallets| => CryptoOption(Wallets[i].0, Wallets[i].1))
  }

  /** `sub` occurs in `s` starting at index `i`. */
  predicate OccursAt(s: string, sub: string, i: int)
  {
    0 <= i <= |s| - |sub| && s[i..i + |sub|] == sub
  }

  /** `s.includes(sub)`. */
  predicate Contains(s: string, sub: string)
  {
    exists i :: 0 <= i <= |s| && OccursAt(s, sub, i)
  }

  // Properties.

  /** The table's keys are exactly the five coin types, each written once. */
  lemma WalletKeys()
    ensures |Wallets| == 5
    ensures forall c :: c in CryptoTypes <==> exists i :: 0 <= i < |Wallets| && Wallets[i].0 == c
    ensures forall i, j :: 0 <= i < j < |Wallets| ==> Wallets[i].0 != Wallets[j].0
  {
    forall c | c in CryptoTypes ensures exists i :: 0 <= i < |Wallets| && Wallets[i].0 == c {
      if c == "BTC" { assert Wallets[0].0 == c; }
      else if c == "ETH" { assert Wallets[1].0 == c; }
      else if c == "USDT_ERC20" { assert Wallets[2].0 == c; }
      else if c == "USDT_TRC20" { assert Wallets[3].0 == c; }
      else { assert Wallets[4].0 == c; }
    }
  }

  /** `getCryptoConfig` succeeds exactly on the five coin types, with the
      configuration the table holds for each, and throws "Unknown crypto type"
      on anything else. */
  lemma GetCryptoConfigTotalOnTypes(coin: string)
    ensures GetCryptoConfig(coin).Success? <==> coin in CryptoTypes
    ensures coin !in CryptoTypes ==> GetCryptoConfig(coin).Failure?
    ensures coin == "BTC" ==> GetCryptoConfig(coin) == Success(Wallets[0].1)
    ensures coin == "ETH" ==> GetCryptoConfig(coin) == Success(Wallets[1].1)
    ensures coin == "USDT_ERC20" ==> GetCryptoConfig(coin) == Success(Wallets[2].1)
    ensures coin == "USDT_TRC20" ==> GetCryptoConfig(coin) == Success(Wallets[3].1)
    ensures coin == "USDT_SOL" ==> GetCryptoConfig(coin) == Success(Wallets[4].1)
  {
    WalletKeys();
  }

  /** Every option `getAvailableCryptos` lists is what `getCryptoConfig`
      gives for its type, and every coin type is listed exactly once. */
  lemma AvailableCryptosAgree()
    ensures |GetAvailableCryptos()| == 5
    ensures forall i :: 0 <= i < |GetAvailableCryptos()| ==>
      GetCryptoConfig(GetAvailableCryptos()[i].coin) == Success(GetAvailableCryptos()[i].config)
    ensures forall c :: c in CryptoTypes <==> exists i :: 0 <= i < |GetAvailableCryptos()| && GetAvailableCryptos()[i].coin == c
  {
    AvailableCryptosFound();
    AvailableCryptosCoverTypes();
  }

  /** Each listed option is what the lookup of its coin gives. */
  lemma AvailableCryptosFound()
    ensures forall i :: 0 <= i < |GetAvailableCryptos()| ==>
      GetCryptoConfig(GetAvailableCryptos()[i].coin) == Success(GetAvailableCryptos()[i].config)
  {
    var w := Wallets;
    assert forall a, b :: 0 <= a < b < |w| ==> w[a].0 != w[b].0 by { WalletKeys(); }
    var r := GetAvailableCryptos();
    forall i | 0 <= i < |r| ensures GetCryptoConfig(r[i].coin) == Success(r[i].config) {
      assert r[i].coin == w[i].0 && r[i].config == w[i].1;
      LookupDistinctKeys(w, i);
    }
  }

  /** The listed coins are exactly the five coin types. */
  lemma AvailableCryptosCoverTypes()
    ensures |GetAvailableCryptos()| == 5
    ensures forall c :: c in CryptoTypes <==> exists i :: 0 <= i < |GetAvailableCryptos()| && GetAvailableCryptos()[i].coin == c
  {
    var w := Wallets;
    assert forall c :: c in CryptoTypes <==> exists i :: 0 <= i < |w| && w[i].0 == c by { WalletKeys(); }
    var r := GetAvailableCryptos();
    assert forall i :: 0 <= i < |r| ==> r[i].coin == w[i].0;
    forall c | c in CryptoTypes ensures exists i :: 0 <= i < |r| && r[i].coin == c {
      var i :| 0 <= i < |w| && w[i].0 == c;
      assert r[i].coin == c;
    }
  }

  /** In a table whose keys are distinct, looking up an entry's key gives that entry. */
  lemma {:induction false} LookupDistinctKeys(entries: seq<(string, CryptoConfig)>, i: nat)
    requires i < |entries|
    requires forall a, b :: 0 <= a < b < |entries| ==> entries[a].0 != entries[b].0
    ensures Lookup(entries, entries[i].0) == Some(entries[i].1)
  {
    if i > 0 {
      assert entries[0].0 != entries[i].0;
      LookupDistinctKeys(entries[1..], i - 1);
      assert entries[1..][i - 1] == entries[i];
    }
  }

  /** Every field of every entry is a non-empty string. */
  lemma ConfigsFilledIn()
    ensures forall i :: 0 <= i < |Wallets| ==>
      var c := Wallets[i].1;
      c.name != "" && c.symbol != "" && c.network != "" && c.address != "" && c.coingeckoId != ""
  {
  }

  /** Ethereum and USDT on ERC-20 pay to the same address; the other coins
      each have their own. */
  lemma SharedEthereumAddress()
    ensures Wallets[1].1.address == Wallets[2].1.address == EthereumAddress
    ensures forall i, j :: 0 <= i < j < |Wallets| && Wallets[i].1.address == Wallets[j].1.address ==> i == 1 && j == 2
  {
    assert |Wallets[0].1.address| == 62;
    assert |EthereumAddress| == 42;
    assert |Wallets[3].1.address| == 34;
    assert |Wallets[4].1.address| == 43;
  }

  /** A string in which a 'B' is never followed by the second letter of
      `sub`, when `sub` starts with 'B', does not contain `sub`. */
  lemma NoPairNoSubstring(s: string, sub: string)
    requires |sub| >= 2 && sub[0] == 'B'
    requires forall i :: 0 <= i < |s| - 1 && s[i] == 'B' ==> s[i + 1] != sub[1]
    ensures !Contains(s, sub)
  {
    forall i | 0 <= i <= |s| - |sub| ensures !OccursAt(s, sub, i) {
      if s[i] == 'B' {
        assert s[i..i + |sub|][1] != sub[1];
      } else {
        assert s[i..i + |sub|][0] != sub[0];
      }
    }
  }

  /** No BNB or BEP-20 wallet: neither key is in the table, and no network
      mentions them. */
  lemma NoBinanceChain()
    ensures forall i :: 0 <= i < |Wallets| ==> Wallets[i].0 != "BNB" && Wallets[i].0 != "BEP20"
    ensures forall i :: 0 <= i < |Wallets| ==>
      !Contains(Wallets[i].1.network, "BNB") && !Contains(Wallets[i].1.network, "BEP-20")
  {
    forall i | 0 <= i < |Wallets|
      ensures !Contains(Wallets[i].1.network, "BNB") && !Contains(Wallets[i].1.network, "BEP-20")
    {
      var n := Wallets[i].1.network;
      OnlyLeadingB(i);
      NoPairNoSubstring(n, "BNB");
      NoPairNoSubstring(n, "BEP-20");
    }
  }

  /** The only 'B' in any network name is the first letter of "Bitcoin mainnet". */
  lemma OnlyLeadingB(i: nat)
    requires i < |Wallets|
    ensures forall k :: 0 <= k < |Wallets[i].1.network| && Wallets[i].1.network[k] == 'B' ==> i == 0 && k == 0
  {
  }
}
