/** Address classification (`is_valid_address`): which chain a token
    contract address belongs to, judged from its text alone. */
module Addresses {
  import opened Wrappers
  import Base58

  /** The two chains the tracker knows; `None` of `Option<Chain>` stands for
      the `False` the classifier returns for anything else. */
  datatype Chain = Ethereum | Solana

  /** The string the classifier returns for a chain, which is also the
      spelling of the chain in the market data's `chainId` field. */
  function ChainName(c: Chain): string
  {
    match c
    case Ethereum => "ethereum"
    case Solana => "solana"
  }

  predicate StartsWith(s: string, prefix: string)
  {
    |prefix| <= |s| && s[..|prefix|] == prefix
  }

  /** The Ethereum rule: a "0x" prefix and 42 characters in all. */
  predicate HasEthereumForm(address: string)
  {
    StartsWith(address, "0x") && |address| == 42
  }

  /** `is_valid_address`. Total: a failing Base58 decode is part of the
      result, not an error. A Solana public key is 32 bytes. */
  function Classify(address: string): (r: Option<Chain>)
    ensures r == Some(Ethereum) <==> HasEthereumForm(address)
    ensures r == Some(Solana) <==>
      && !HasEthereumForm(address)
      && Base58.Decode(address).Some?
      && |Base58.Decode(address).value| == 32
  {
    if HasEthereumForm(address) then Some(Ethereum)
    else
      match Base58.Decode(address)
      case Some(key) => if |key| == 32 then Some(Solana) else None
      case None => None
  }

  /** Any text of the Ethereum form is Ethereum, whatever its last 40 characters. */
  lemma EthereumAnyTail(tail: string)
    requires |tail| == 40
    ensures Classify("0x" + tail) == Some(Ethereum)
  {
    assert ("0x" + tail)[..2] == "0x";
  }

  /** A "0x" text of any other length is invalid: '0' is not a Base58 digit. */
  lemma HexPrefixOtherLengthInvalid(address: string)
    requires StartsWith(address, "0x") && |address| != 42
    ensures Classify(address) == None
  {
    assert address[0] == '0' by { assert address[..2][0] == address[0]; }
    Base58.DecodeDefined(address);
  }

  /** Text that is not of the Ethereum form and has a character outside the
      Base58 alphabet is invalid (where `b58decode` raises). */
  lemma OffAlphabetInvalid(address: string, i: nat)
    requires i < |address| && Base58.DigitOf(address[i]).None?
    requires !HasEthereumForm(address)
    ensures Classify(address) == None
  {
    Base58.DecodeDefined(address);
  }

  /** The Base58 text of a byte string is Solana exactly when the string is
      32 bytes long, and invalid for every other length (0, 31, 33, 64, ...). */
  lemma EncodedKeyClassification(key: seq<Base58.byte>)
    ensures Classify(Base58.Encode(key)) == if |key| == 32 then Some(Solana) else None
  {
    var s := Base58.Encode(key);
    Base58.EncodeInAlphabet(key);
    assert !StartsWith(s, "0x") by {
      if |s| >= 2 {
        assert s[..2][0] == s[0];
      }
    }
    Base58.DecodeEncode(key);
  }

  /** Conversely, every text classified Solana is the Base58 text of a
      32-byte key: the one it decodes to. */
  lemma SolanaIsEncodedKey(address: string)
    requires Classify(address) == Some(Solana)
    ensures Base58.Decode(address).Some?
    ensures |Base58.Decode(address).value| == 32
    ensures Base58.Encode(Base58.Decode(address).value) == address
  {
    Base58.EncodeDecode(address);
  }
}
