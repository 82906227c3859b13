/**
 * The blinded ("confidential") address codec of `BitcoinBlindedAddress`.
 *
 * A blinded address payload is laid out as
 *
 *   BLINDED_ADDRESS prefix ++ destination version bytes ++ 33-byte blinding key ++ 20-byte hash
 *
 * where the destination version bytes are the network's PUBKEY_ADDRESS
 * prefix for a key hash and its SCRIPT_ADDRESS prefix for a script hash.
 * Decoding searches the candidate networks in order and the first one whose
 * prefixes, lengths and key validity all check out wins.
 *
 * The Base58Check text layer, public-key validity and the network registry
 * are collaborators outside this model; they are passed in through `Env`.
 */
module BlindedAddressCodec {
  import opened Outcomes
  import opened Bytes

  /** The kinds of Base58 data a network assigns version bytes to (the ones used here). */
  datatype Base58Type = PUBKEY_ADDRESS | SCRIPT_ADDRESS | BLINDED_ADDRESS

  /** A network profile: its version bytes per kind, `None` where the network has none. */
  datatype Network = Network(
    name: string,
    blindedPrefix: Option<seq<byte>>,
    pubkeyPrefix: Option<seq<byte>>,
    scriptPrefix: Option<seq<byte>>)
  {
    /** The version bytes for `kind`, or `None` (the registry's lookup without throwing). */
    function GetVersionBytes(kind: Base58Type): (v: Option<seq<byte>>)
    {
      match kind
      case PUBKEY_ADDRESS => pubkeyPrefix
      case SCRIPT_ADDRESS => scriptPrefix
      case BLINDED_ADDRESS => blindedPrefix
    }
  }

  /** A 160-bit hash, always 20 bytes. */
  type Hash160 = s: seq<byte> | |s| == 20 witness seq(20, _ => 0)

  /** The destination an address pays to: a key hash or a script hash. */
  datatype TxDestination = KeyId(hash: Hash160) | ScriptId(hash: Hash160)
  {
    /** The kind of plain address this destination resolves to. */
    function AddressType(): (kind: Base58Type)
    {
      if KeyId? then PUBKEY_ADDRESS else SCRIPT_ADDRESS
    }
  }

  /** A public key, by its serialized bytes (33 compressed or 65 uncompressed in the source). */
  datatype PubKey = PubKey(bytes: seq<byte>)

  /** The exceptions the codec can raise. */
  datatype Error =
    | ArgumentNull(paramName: string)
    | Format
    | NullReference
    | MissingVersionBytes(kind: Base58Type)

  /**
   * The collaborators: the registered networks in registration order, the
   * Base58Check decoder (`None` for a bad checksum or alphabet) and encoder,
   * and the public-key format check.
   */
  datatype Env = Env(
    registry: seq<Network>,
    unarmor: string -> Option<seq<byte>>,
    armor: seq<byte> -> string,
    isValidKey: seq<byte> -> bool)

  /** What one successful validation writes back through its `ref` parameters. */
  datatype Decoded = Decoded(network: Network, blinding: PubKey, hash: TxDestination)

  /** A constructed address: its text, its network, its blinding key and its destination. */
  datatype BitcoinBlindedAddress = BitcoinBlindedAddress(
    base58: string,
    network: Network,
    blindingKey: PubKey,
    hash: TxDestination)
  {
    /** The Base58 kind of every blinded address, whatever its network or destination. */
    function Type(): (kind: Base58Type)
      ensures kind == BLINDED_ADDRESS
    {
      BLINDED_ADDRESS
    }

    /** Blinding an address that is already blinded gives the address itself. */
    function CreateBlindedAddressCore(blinded: PubKey): (r: BitcoinBlindedAddress)
      ensures r == this
    {
      this
    }
  }

  /** `None` for a present argument; the `ArgumentNullException` naming it for a missing one. */
  function NotNull<T>(o: Option<T>, name: string): (r: Option<Error>)
    ensures r.None? <==> o.Some?
    ensures r.Some? ==> r.value == ArgumentNull(name)
  {
    if o.None? then Some(ArgumentNull(name)) else None
  }

  // ---------------------------------------------------------------------
  // Decoding
  // ---------------------------------------------------------------------

  /** The verdict of one network on the payload. */
  datatype Candidate =
    | Skip                                        // this network does not match; try the next
    | Crash(error: Error)                         // an exception that escapes the whole search
    | Match(blinding: PubKey, hash: TxDestination) // this network accepts the payload

  /**
   * The tail of the per-network check once the destination version bytes
   * (`offset` bytes of `inner`) are known: exact length, then key validity.
   */
  function Extract(inner: seq<byte>, offset: nat, isP2SH: bool, isValidKey: seq<byte> -> bool): (c: Candidate)
    ensures c.Match? ==> |inner| == offset + 53
    ensures c.Match? ==> c.blinding.bytes == inner[offset..offset + 33] && isValidKey(c.blinding.bytes)
    ensures c.Match? ==> c.hash.hash == inner[offset + 33..] && (c.hash.ScriptId? <==> isP2SH)
    ensures !c.Crash?
  {
    if |inner| != offset + 33 + 20 then Skip
    else
      var keyBytes := inner[offset..offset + 33];
      if !isValidKey(keyBytes) then Skip
      else
        var h: Hash160 := inner[offset + 33..offset + 53];
        Match(PubKey(keyBytes), if isP2SH then ScriptId(h) else KeyId(h))
  }

  /**
   * One iteration of the search: network `n` judged against the payload
   * `data`. A missing PUBKEY_ADDRESS or SCRIPT_ADDRESS prefix is a null
   * dereference in the prefix test, which no `catch` intercepts.
   */
  function TryNetwork(data: seq<byte>, n: Network, isValidKey: seq<byte> -> bool): (c: Candidate)
    ensures c.Crash? ==> c.error == NullReference
    ensures c.Crash? <==>
      && n.blindedPrefix.Some? && HasPrefix(data, n.blindedPrefix.value)
      && (|| n.pubkeyPrefix.None?
          || (!HasPrefix(data[|n.blindedPrefix.value|..], n.pubkeyPrefix.value) && n.scriptPrefix.None?))
    ensures n.blindedPrefix.None? || !HasPrefix(data, n.blindedPrefix.value) ==> c == Skip
    ensures n.blindedPrefix.Some? && HasPrefix(data, n.blindedPrefix.value)
         && n.pubkeyPrefix.Some? && !HasPrefix(data[|n.blindedPrefix.value|..], n.pubkeyPrefix.value)
         && n.scriptPrefix.Some? && !HasPrefix(data[|n.blindedPrefix.value|..], n.scriptPrefix.value)
         ==> c == Skip
    ensures c.Match? ==>
      && n.blindedPrefix.Some? && HasPrefix(data, n.blindedPrefix.value)
      && n.pubkeyPrefix.Some?
      && (c.hash.KeyId? <==> HasPrefix(data[|n.blindedPrefix.value|..], n.pubkeyPrefix.value))
  {
    match n.blindedPrefix
    case None => Skip
    case Some(versionBytes) =>
      if !HasPrefix(data, versionBytes) then Skip
      else
        var innerData := data[|versionBytes|..];
        match n.pubkeyPrefix
        case None => Crash(NullReference)
        case Some(keyPrefix) =>
          if HasPrefix(innerData, keyPrefix) then Extract(innerData, |keyPrefix|, false, isValidKey)
          else
            match n.scriptPrefix
            case None => Crash(NullReference)
            case Some(scriptPrefix) =>
              if HasPrefix(innerData, scriptPrefix) then Extract(innerData, |scriptPrefix|, true, isValidKey)
              else Skip
  }

  /** The outcome of the search once network `n` has given a verdict other than `Skip`. */
  function Conclude(n: Network, c: Candidate): (r: Result<Decoded, Error>)
  {
    match c
    case Match(k, h) => Ok(Decoded(n, k, h))
    case Crash(e) => Err(e)
    case Skip => Err(Format)
  }

  /**
   * The search over the candidate networks, in order: the first network
   * that does not skip decides; when all skip, `FormatException`.
   */
  function Search(data: seq<byte>, networks: seq<Network>, isValidKey: seq<byte> -> bool): (r: Result<Decoded, Error>)
    ensures r.Ok? ==> r.value.network in networks
    ensures r.Ok? ==> TryNetwork(data, r.value.network, isValidKey) == Match(r.value.blinding, r.value.hash)
    ensures r.Err? ==> r.error == Format || r.error == NullReference
    decreases |networks|
  {
    if networks == [] then Err(Format)
    else
      var c := TryNetwork(data, networks[0], isValidKey);
      if c.Skip? then Search(data, networks[1..], isValidKey) else Conclude(networks[0], c)
  }

  /** The networks to try: only the expected one when given, otherwise every registered one. */
  function Candidates(expectedNetwork: Option<Network>, registry: seq<Network>): (networks: seq<Network>)
    ensures expectedNetwork.Some? ==> networks == [expectedNetwork.value]
    ensures expectedNetwork.None? ==> networks == registry
  {
    if expectedNetwork.None? then registry else [expectedNetwork.value]
  }

  /** Decoding a Base58 string, with an optional expected network. */
  function Decode(base58: Option<string>, expectedNetwork: Option<Network>, env: Env): (r: Result<Decoded, Error>)
    ensures base58.None? ==> r == Err(ArgumentNull("base58"))
    ensures base58.Some? && env.unarmor(base58.value).None? ==> r == Err(Format)
    ensures r.Ok? && expectedNetwork.Some? ==> r.value.network == expectedNetwork.value
    ensures r.Ok? && expectedNetwork.None? ==> r.value.network in env.registry
    ensures r.Ok? ==> base58.Some? && env.unarmor(base58.value).Some?
  {
    if base58.None? then Err(ArgumentNull("base58"))
    else
      match env.unarmor(base58.value)
      case None => Err(Format)
      case Some(data) => Search(data, Candidates(expectedNetwork, env.registry), env.isValidKey)
  }

  /**
   * `Validate`: the null check, the Base58Check decoding, then a loop over
   * the candidate networks that `continue`s past every network that does
   * not match. On success the key, the destination and the matching network
   * are what the source writes back through its `ref` parameters.
   */
  method Validate(base58: Option<string>, expectedNetwork: Option<Network>, env: Env) returns (r: Result<Decoded, Error>)
    ensures r == Decode(base58, expectedNetwork, env)
  {
    if base58.None? {
      return Err(ArgumentNull("base58"));
    }
    var networks := Candidates(expectedNetwork, env.registry);
    var decoded := env.unarmor(base58.value);
    if decoded.None? {
      return Err(Format);
    }
    var data := decoded.value;
    var k := 0;
    while k < |networks|
      invariant 0 <= k <= |networks|
      invariant Search(data, networks, env.isValidKey) == Search(data, networks[k..], env.isValidKey)
    {
      var network := networks[k];
      assert networks[k..][0] == network && networks[k..][1..] == networks[k + 1..];
      k := k + 1;
      var isP2SH := false;
      if network.blindedPrefix.None? {
        continue;
      }
      var versionBytes := network.blindedPrefix.value;
      var matches := StartWith(data, versionBytes);
      if !matches {
        continue;
      }
      var innerData := data[|versionBytes|..];
      if network.pubkeyPrefix.None? {
        return Err(NullReference);
      }
      var versionBytes2 := network.pubkeyPrefix.value;
      matches := StartWith(innerData, versionBytes2);
      if !matches {
        if network.scriptPrefix.None? {
          return Err(NullReference);
        }
        versionBytes2 := network.scriptPrefix.value;
        matches := StartWith(innerData, versionBytes2);
        if !matches {
          continue;
        }
        isP2SH := true;
      }
      assert TryNetwork(data, network, env.isValidKey) == Extract(innerData, |versionBytes2|, isP2SH, env.isValidKey);
      if |innerData| != |versionBytes2| + 33 + 20 {
        continue;
      }
      var keyBytes := innerData[|versionBytes2|..|versionBytes2| + 33];
      if !env.isValidKey(keyBytes) {
        continue;
      }
      var h: Hash160 := innerData[|versionBytes2| + 33..|versionBytes2| + 53];
      var hash := if isP2SH then ScriptId(h) else KeyId(h);
      return Ok(Decoded(network, PubKey(keyBytes), hash));
    }
    return Err(Format);
  }

  /**
   * The string constructor: validates once to find the network, then
   * validates again with that network as the expected one and keeps the
   * key and destination of the second pass.
   */
  method FromBase58(base58: Option<string>, expectedNetwork: Option<Network>, env: Env)
    returns (r: Result<BitcoinBlindedAddress, Error>)
    ensures r.Err? <==> Decode(base58, expectedNetwork, env).Err?
    ensures r.Err? ==> r.error == Decode(base58, expectedNetwork, env).error
    ensures r.Ok? ==>
      var d := Decode(base58, expectedNetwork, env).value;
      && base58.Some? && r.value.base58 == base58.value
      && r.value.network == d.network && r.value.blindingKey == d.blinding && r.value.hash == d.hash
  {
    var first := Validate(base58, expectedNetwork, env);
    if first.Err? {
      return Err(first.error);
    }
    var found := first.value.network;
    RevalidateWithFoundNetwork(base58, expectedNetwork, env);
    var second := Validate(base58, Some(found), env);
    r := Ok(BitcoinBlindedAddress(base58.value, second.value.network, second.value.blinding, second.value.hash));
  }

  // ---------------------------------------------------------------------
  // Encoding
  // ---------------------------------------------------------------------

  /**
   * The payload of a blinded address: the BLINDED_ADDRESS prefix, the
   * destination's version bytes, the key bytes and the hash. Each prefix
   * is fetched with throw-if-missing.
   */
  function Payload(blindingKey: PubKey, dest: TxDestination, network: Network): (r: Result<seq<byte>, Error>)
    ensures r.Ok? <==> network.blindedPrefix.Some? && network.GetVersionBytes(dest.AddressType()).Some?
    ensures network.GetVersionBytes(dest.AddressType()).None? ==> r == Err(MissingVersionBytes(dest.AddressType()))
    ensures network.GetVersionBytes(dest.AddressType()).Some? && network.blindedPrefix.None?
         ==> r == Err(MissingVersionBytes(BLINDED_ADDRESS))
    ensures r.Ok? ==>
      var b := network.blindedPrefix.value;
      var v := network.GetVersionBytes(dest.AddressType()).value;
      && |r.value| == |b| + |v| + |blindingKey.bytes| + 20
      && r.value[..|b|] == b
      && r.value[|b|..|b| + |v|] == v
      && r.value[|b| + |v|..|b| + |v| + |blindingKey.bytes|] == blindingKey.bytes
      && r.value[|b| + |v| + |blindingKey.bytes|..] == dest.hash
  {
    match network.GetVersionBytes(dest.AddressType())
    case None => Err(MissingVersionBytes(dest.AddressType()))
    case Some(destVersion) =>
      match network.GetVersionBytes(BLINDED_ADDRESS)
      case None => Err(MissingVersionBytes(BLINDED_ADDRESS))
      case Some(blindedVersion) => Ok(blindedVersion + destVersion + blindingKey.bytes + dest.hash)
  }

  /** The parts constructor: null checks on the destination, then the key, then encoding. */
  function Create(blindingKey: Option<PubKey>, keyId: Option<TxDestination>, network: Network, env: Env)
    : (r: Result<BitcoinBlindedAddress, Error>)
    ensures keyId.None? ==> r == Err(ArgumentNull("keyId"))
    ensures keyId.Some? && blindingKey.None? ==> r == Err(ArgumentNull("blindingKey"))
    ensures r.Ok? ==>
      && blindingKey.Some? && keyId.Some?
      && r.value.blindingKey == blindingKey.value && r.value.hash == keyId.value && r.value.network == network
      && Payload(blindingKey.value, keyId.value, network).Ok?
      && r.value.base58 == env.armor(Payload(blindingKey.value, keyId.value, network).value)
    ensures keyId.Some? && blindingKey.Some? ==>
      (r.Ok? <==> Payload(blindingKey.value, keyId.value, network).Ok?)
    ensures r.Err? && keyId.Some? && blindingKey.Some? ==>
      r.error == Payload(blindingKey.value, keyId.value, network).error
  {
    var nullKeyId := NotNull(keyId, "keyId");
    if nullKeyId.Some? then Err(nullKeyId.value)
    else
      var nullKey := NotNull(blindingKey, "blindingKey");
      if nullKey.Some? then Err(nullKey.value)
      else
        match Payload(blindingKey.value, keyId.value, network)
        case Err(e) => Err(e)
        case Ok(p) => Ok(BitcoinBlindedAddress(env.armor(p), network, blindingKey.value, keyId.value))
  }

  // ---------------------------------------------------------------------
  // Properties
  // ---------------------------------------------------------------------

  /**
   * First match wins: when `i` is the first network that does not skip,
   * the search result is that network's verdict; when every network skips,
   * the search fails with `FormatException`.
   */
  lemma {:induction false} SearchIsFirstVerdict(data: seq<byte>, networks: seq<Network>, isValidKey: seq<byte> -> bool, i: nat)
    requires i <= |networks|
    requires forall j :: 0 <= j < i ==> TryNetwork(data, networks[j], isValidKey).Skip?
    requires i < |networks| ==> !TryNetwork(data, networks[i], isValidKey).Skip?
    ensures i == |networks| ==> Search(data, networks, isValidKey) == Err(Format)
    ensures i < |networks| ==>
      Search(data, networks, isValidKey) == Conclude(networks[i], TryNetwork(data, networks[i], isValidKey))
    decreases i
  {
    if networks != [] && i > 0 {
      assert TryNetwork(data, networks[0], isValidKey).Skip?;
      forall j | 0 <= j < i - 1
        ensures TryNetwork(data, networks[1..][j], isValidKey).Skip?
      {
        assert networks[1..][j] == networks[j + 1];
      }
      SearchIsFirstVerdict(data, networks[1..], isValidKey, i - 1);
    }
  }

  /**
   * Validating again with the network found by a first validation succeeds
   * with the same key, destination and network: the constructor's second
   * pass never fails and never disagrees with the first.
   */
  lemma RevalidateWithFoundNetwork(base58: Option<string>, expectedNetwork: Option<Network>, env: Env)
    requires Decode(base58, expectedNetwork, env).Ok?
    ensures Decode(base58, Some(Decode(base58, expectedNetwork, env).value.network), env)
         == Decode(base58, expectedNetwork, env)
  {
  }

  /**
   * Every payload a network accepts is exactly the encoding of what it
   * decodes to: the accepted payload is `prefix ++ version ++ key ++ hash`,
   * the key is 33 valid bytes and the hash kind matches the version bytes.
   */
  lemma {:induction false} AcceptedPayloadIsEncoding(data: seq<byte>, n: Network, isValidKey: seq<byte> -> bool)
    requires TryNetwork(data, n, isValidKey).Match?
    ensures
      var c := TryNetwork(data, n, isValidKey);
      && |c.blinding.bytes| == 33 && isValidKey(c.blinding.bytes)
      && Payload(c.blinding, c.hash, n) == Ok(data)
  {
    var c := TryNetwork(data, n, isValidKey);
    var b := n.blindedPrefix.value;
    var v := n.GetVersionBytes(c.hash.AddressType()).value;
    MatchedPayloadShape(data, n, isValidKey);
    assert Payload(c.blinding, c.hash, n) == Ok(b + v + c.blinding.bytes + c.hash.hash);
  }

  /**
   * Only the byte-split step of `AcceptedPayloadIsEncoding`: an accepted
   * payload is the blinded prefix, the version bytes, the key and the hash.
   */
  lemma MatchedPayloadShape(data: seq<byte>, n: Network, isValidKey: seq<byte> -> bool)
    requires TryNetwork(data, n, isValidKey).Match?
    ensures
      var c := TryNetwork(data, n, isValidKey);
      && n.GetVersionBytes(c.hash.AddressType()).Some?
      && |c.blinding.bytes| == 33 && isValidKey(c.blinding.bytes)
      && data == n.blindedPrefix.value + n.GetVersionBytes(c.hash.AddressType()).value + c.blinding.bytes + c.hash.hash
  {
  }

  /** Decoding succeeds only on a payload that re-encodes, under the found network, to itself. */
  lemma DecodedReencodes(base58: Option<string>, expectedNetwork: Option<Network>, env: Env)
    requires Decode(base58, expectedNetwork, env).Ok?
    ensures
      var d := Decode(base58, expectedNetwork, env).value;
      && |d.blinding.bytes| == 33 && env.isValidKey(d.blinding.bytes)
      && Payload(d.blinding, d.hash, d.network) == Ok(env.unarmor(base58.value).value)
  {
    var d := Decode(base58, expectedNetwork, env).value;
    AcceptedPayloadIsEncoding(env.unarmor(base58.value).value, d.network, env.isValidKey);
  }

  /**
   * Encoding then decoding under the same network gives back the key,
   * destination and network, provided the Base58Check layer round-trips,
   * the key is a valid compressed (33-byte) key, and, for a script hash,
   * the network has a PUBKEY_ADDRESS prefix that does not shadow the
   * script-address data.
   */
  lemma {:induction false} DecodeOfCreate(key: PubKey, dest: TxDestination, network: Network, env: Env)
    requires Create(Some(key), Some(dest), network, env).Ok?
    requires var p := Payload(key, dest, network).value; env.unarmor(env.armor(p)) == Some(p)
    requires |key.bytes| == 33 && env.isValidKey(key.bytes)
    requires dest.ScriptId? ==>
      && network.pubkeyPrefix.Some?
      && !HasPrefix(network.scriptPrefix.value + key.bytes + dest.hash, network.pubkeyPrefix.value)
    ensures Decode(Some(Create(Some(key), Some(dest), network, env).value.base58), Some(network), env)
         == Ok(Decoded(network, key, dest))
  {
    var b := network.blindedPrefix.value;
    var v := network.GetVersionBytes(dest.AddressType()).value;
    var inner := v + key.bytes + dest.hash;
    var p := Payload(key, dest, network).value;
    assert p == b + inner;
    HasPrefixOfConcat(b, inner);
    HasPrefixOfConcat(v, key.bytes + dest.hash);
    assert inner == v + (key.bytes + dest.hash);
    assert inner[|v|..|v| + 33] == key.bytes;
    assert inner[|v| + 33..|v| + 53] == dest.hash;
    assert TryNetwork(p, network, env.isValidKey) == Match(key, dest);
    SearchIsFirstVerdict(p, [network], env.isValidKey, 0);
  }

  /**
   * Decoding without an expected network finds the encoding network when it
   * is registered and every network registered before it skips the payload
   * (none accepts it and none crashes).
   */
  lemma DecodeOfCreateFromRegistry(key: PubKey, dest: TxDestination, env: Env, i: nat)
    requires i < |env.registry|
    requires Create(Some(key), Some(dest), env.registry[i], env).Ok?
    requires var p := Payload(key, dest, env.registry[i]).value; env.unarmor(env.armor(p)) == Some(p)
    requires |key.bytes| == 33 && env.isValidKey(key.bytes)
    requires dest.ScriptId? ==>
      && env.registry[i].pubkeyPrefix.Some?
      && !HasPrefix(env.registry[i].scriptPrefix.value + key.bytes + dest.hash, env.registry[i].pubkeyPrefix.value)
    requires forall j :: 0 <= j < i ==>
      TryNetwork(Payload(key, dest, env.registry[i]).value, env.registry[j], env.isValidKey).Skip?
    ensures Decode(Some(Create(Some(key), Some(dest), env.registry[i], env).value.base58), None, env)
         == Ok(Decoded(env.registry[i], key, dest))
  {
    var network := env.registry[i];
    var p := Payload(key, dest, network).value;
    DecodeOfCreate(key, dest, network, env);
    SearchIsFirstVerdict(p, [network], env.isValidKey, 0);
    SearchIsFirstVerdict(p, env.registry, env.isValidKey, i);
  }

  /**
   * Kind precedence: when the PUBKEY_ADDRESS prefix is a prefix of the
   * script-address data, a script-hash address never decodes as that
   * script hash under its own network (it is read as a key hash or rejected).
   */
  lemma ScriptHashShadowedByKeyPrefix(key: PubKey, h: Hash160, network: Network, env: Env)
    requires Create(Some(key), Some(ScriptId(h)), network, env).Ok?
    requires var p := Payload(key, ScriptId(h), network).value; env.unarmor(env.armor(p)) == Some(p)
    requires network.pubkeyPrefix.Some?
    requires HasPrefix(network.scriptPrefix.value + key.bytes + h, network.pubkeyPrefix.value)
    ensures Decode(Some(Create(Some(key), Some(ScriptId(h)), network, env).value.base58), Some(network), env)
         != Ok(Decoded(network, key, ScriptId(h)))
  {
  }

  /**
   * A payload whose leading bytes are not the expected network's
   * BLINDED_ADDRESS prefix is rejected with `FormatException`.
   */
  lemma {:induction false} DecodeUnderForeignNetwork(base58: string, other: Network, env: Env)
    requires env.unarmor(base58).Some?
    requires other.blindedPrefix.None? || !HasPrefix(env.unarmor(base58).value, other.blindedPrefix.value)
    ensures Decode(Some(base58), Some(other), env) == Err(Format)
  {
    SearchIsFirstVerdict(env.unarmor(base58).value, [other], env.isValidKey, 1);
  }

  /**
   * The kind an address reports is the kind whose version bytes lead its
   * payload.
   */
  lemma TypeLeadsPayload(key: PubKey, dest: TxDestination, network: Network, env: Env)
    requires Create(Some(key), Some(dest), network, env).Ok?
    ensures
      var a := Create(Some(key), Some(dest), network, env).value;
      && network.GetVersionBytes(a.Type()).Some?
      && HasPrefix(Payload(key, dest, network).value, network.GetVersionBytes(a.Type()).value)
  {
  }

  /**
   * A candidate network whose BLINDED_ADDRESS prefix matches but which lacks
   * the PUBKEY_ADDRESS prefix, or fails it and lacks the SCRIPT_ADDRESS
   * prefix, ends the whole search with `NullReference`: later networks are
   * never tried.
   */
  lemma MissingDestinationPrefixAbortsSearch(
    data: seq<byte>, n: Network, rest: seq<Network>, isValidKey: seq<byte> -> bool)
    requires n.blindedPrefix.Some? && HasPrefix(data, n.blindedPrefix.value)
    requires || n.pubkeyPrefix.None?
             || (!HasPrefix(data[|n.blindedPrefix.value|..], n.pubkeyPrefix.value) && n.scriptPrefix.None?)
    ensures Search(data, [n] + rest, isValidKey) == Err(NullReference)
  {
  }
}
