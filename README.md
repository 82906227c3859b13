# Blinded address codec

A Dafny model of the codec in NBitcoin's `BitcoinBlindedAddress` (the
Elements/Liquid confidential address). A blinded address carries a
network, a 33-byte blinding public key and a 20-byte destination hash.
The hash is either a key hash (`KeyId`) or a script hash (`ScriptId`).
Its Base58Check payload is

    BLINDED_ADDRESS prefix ++ destination version bytes ++ blinding key ++ hash

The destination version bytes are the network's PUBKEY_ADDRESS prefix for a
key hash and its SCRIPT_ADDRESS prefix for a script hash.

- `bytes.dfy` (module `Bytes`): bytes, the `HasPrefix` predicate and the
  `StartWith` loop that tests it.
- `outcomes.dfy` (module `Outcomes`): `Option` for `null` and `Result` for a
  value or the exception thrown in its place.
- `blinded_address.dfy` (module `BlindedAddressCodec`): the data model, the
  decoder (`Validate` as a loop, `Search` as its specification), the string
  constructor (`FromBase58`), the parts constructor (`Create`, `Payload`) and
  the lemmas relating them.

The collaborators the codec calls are parameters, bundled in `Env`:
- the Base58Check decoder `unarmor` (`None` for a bad checksum) and encoder `armor`;
- the public-key format check `isValidKey`;
- the registered networks `registry`, in registration order.

A network is a record of optional prefixes. Exceptions are `Error` values:
`ArgumentNull`, `Format`, `NullReference` and `MissingVersionBytes`.

Decoding tries the candidate networks in order. The candidates are the
expected network alone, or every registered network when none is expected.
Each network's verdict (`TryNetwork`) is `Skip`, `Crash` or `Match`. The
first verdict other than `Skip` decides. When every network skips, decoding
fails with `Format`.

Points where the model follows the code as written:
- The encoder embeds the destination's version bytes after the
  BLINDED_ADDRESS prefix (`NBitcoin/BitcoinBlindedAddress.cs:74-77`). The
  decoder expects them there (lines 44-55). The model uses this layout, not
  one in which the blinded prefix is followed directly by the key.
- During decoding, a network that has a BLINDED_ADDRESS prefix but lacks the
  PUBKEY_ADDRESS prefix does not just skip. Neither does one whose
  PUBKEY_ADDRESS test fails and that lacks the SCRIPT_ADDRESS prefix. In both
  cases the prefix test is given `null` and throws `NullReferenceException`.
  The `catch (FormatException)` does not intercept that, so the whole decode
  fails and later networks are never tried
  (`MissingDestinationPrefixAbortsSearch`). The model returns
  `Err(NullReference)` there.
- The decoder calls `data.StartWith(..)` in extension-method form (lines 41,
  45 and 48). That resolves to a `byte[]` extension method defined outside
  this file; the private two-argument `StartWith` at lines 98-108 cannot be
  bound there and is unused. The model's `StartWith` follows lines 98-108,
  and the model assumes the extension method behaves the same, in
  particular that it dereferences a `null` prefix.
- The key-hash prefix is tried first. Suppose the PUBKEY_ADDRESS prefix is a
  prefix of a script-hash address's inner data. Then that address never
  decodes as the same script hash under its own network
  (`ScriptHashShadowedByKeyPrefix`).
- `PubKey` may also be a 65-byte uncompressed key. Encoding accepts it. The
  resulting payload does not decode back to the same key: it is usually
  rejected for its length, and with some prefix tables it is read as a
  different address. The round-trip lemmas therefore require a 33-byte key.
- A failed Base58Check decoding and a payload that no network accepts both
  end in `FormatException` (lines 36 and 67), so the model gives both
  `Err(Format)`.

## Model

| member | source | states |
|---|---|---|
| `Bytes.StartWith` | NBitcoin/BitcoinBlindedAddress.cs:98-108 | returns true exactly when `b` is no longer than `a` and `a` agrees with `b` on its first `|b|` bytes; false whenever `a` is shorter than `b` |
| `BlindedAddressCodec.NotNull` | NBitcoin/BitcoinBlindedAddress.cs:83-88 | no error for a present argument; `ArgumentNull` naming the parameter for a missing one |
| `BlindedAddressCodec.Extract` | NBitcoin/BitcoinBlindedAddress.cs:55-63 | accepts only when the inner data is exactly destination-prefix length + 53 bytes and the 33 key bytes are a valid key; the key is `inner[off..off+33]`, the hash is the last 20 bytes, and the hash is a `ScriptId` exactly when the script prefix matched; it never throws |
| `BlindedAddressCodec.TryNetwork` | NBitcoin/BitcoinBlindedAddress.cs:39-63 | one network's verdict: skipped when it has no BLINDED_ADDRESS prefix or that prefix does not start the data, and skipped when both destination prefixes exist and neither starts the inner data; it crashes (with `NullReference`, the only escaping exception) exactly when the blinded prefix matches and the PUBKEY_ADDRESS prefix is missing, or fails and the SCRIPT_ADDRESS prefix is missing; a match implies the blinded prefix starts the data, and the hash is a key hash exactly when the PUBKEY_ADDRESS prefix starts the inner data |
| `BlindedAddressCodec.Search` | NBitcoin/BitcoinBlindedAddress.cs:37-67 | a successful search returns a candidate network together with that network's own match; failures are `Format` or `NullReference` only |
| `BlindedAddressCodec.Candidates` | NBitcoin/BitcoinBlindedAddress.cs:35-35 | the networks tried are the expected network alone when one is given, otherwise the whole registry in its order |
| `BlindedAddressCodec.Decode` | NBitcoin/BitcoinBlindedAddress.cs:31-37 | a null string fails with `ArgumentNull("base58")` before any search; a text the Base58Check layer rejects fails with `Format` before any network is tried; with an expected network, success binds that network; without one, the network found is a registered one; success requires the Base58Check layer to accept the text |
| `BlindedAddressCodec.Validate` | NBitcoin/BitcoinBlindedAddress.cs:31-68 | the loop with its `continue`s over candidate networks computes exactly `Decode`: same error, or the same key, destination and network written back |
| `BlindedAddressCodec.FromBase58` | NBitcoin/BitcoinBlindedAddress.cs:12-29 | validating twice (the second time with the network found the first time) fails exactly when decoding fails, with the same error; on success the address holds the input text and the decoded network, key and destination |
| `BlindedAddressCodec.Payload` | NBitcoin/BitcoinBlindedAddress.cs:74-77 | the payload exists exactly when the network has the BLINDED_ADDRESS prefix and the destination kind's prefix; a missing destination prefix is reported before a missing blinded prefix; the payload is the blinded prefix, then the destination version bytes, then the key bytes, then the 20 hash bytes |
| `BlindedAddressCodec.Create` | NBitcoin/BitcoinBlindedAddress.cs:71-88 | a null destination fails with `ArgumentNull("keyId")` before the key is checked; then a null key fails with `ArgumentNull("blindingKey")`; with both present it succeeds exactly when `Payload` does, and otherwise fails with `Payload`'s missing-prefix error; a success stores the given key, destination and network and armors the payload |
| `BlindedAddressCodec.BitcoinBlindedAddress.Type` | NBitcoin/BitcoinBlindedAddress.cs:90-96 | every blinded address reports the kind BLINDED_ADDRESS |
| `BlindedAddressCodec.BitcoinBlindedAddress.CreateBlindedAddressCore` | NBitcoin/BitcoinBlindedAddress.cs:141-144 | blinding an already blinded address returns the address itself, keeping its own blinding key and ignoring the new one |
| `BlindedAddressCodec.MissingDestinationPrefixAbortsSearch` | NBitcoin/BitcoinBlindedAddress.cs:44-50 | a network whose blinded prefix matches but which lacks the PUBKEY_ADDRESS prefix, or fails it and lacks the SCRIPT_ADDRESS prefix, ends the whole search with `NullReference` whatever networks follow it |
| `BlindedAddressCodec.SearchIsFirstVerdict` | NBitcoin/BitcoinBlindedAddress.cs:37-67 | first match wins: if network `i` is the first one that does not skip, the search result is its verdict; if every network skips, the search fails with `Format` |
| `BlindedAddressCodec.RevalidateWithFoundNetwork` | NBitcoin/BitcoinBlindedAddress.cs:12-22 | decoding again with the network found by a successful decode as the expected one gives the same key, destination and network |
| `BlindedAddressCodec.AcceptedPayloadIsEncoding` | NBitcoin/BitcoinBlindedAddress.cs:40-61 | every payload a network accepts is exactly `Payload` of the decoded key and destination under that network, with a valid 33-byte key |
| `BlindedAddressCodec.DecodedReencodes` | NBitcoin/BitcoinBlindedAddress.cs:31-77 | a successful decode re-encodes, under the network it found, to the very payload that was decoded |
| `BlindedAddressCodec.DecodeOfCreate` | NBitcoin/BitcoinBlindedAddress.cs:44-77 | decoding an encoded address under its own network returns its key, destination and network, provided Base58Check round-trips, the key is a valid 33-byte key, and for a script hash the PUBKEY_ADDRESS prefix exists and does not start the inner data |
| `BlindedAddressCodec.DecodeOfCreateFromRegistry` | NBitcoin/BitcoinBlindedAddress.cs:35-77 | with no expected network, decoding an encoded address finds the encoding network when it is registered and every network registered before it skips the payload (none accepts it and none crashes) |
| `BlindedAddressCodec.ScriptHashShadowedByKeyPrefix` | NBitcoin/BitcoinBlindedAddress.cs:44-53 | when the PUBKEY_ADDRESS prefix starts the inner data of a script-hash address, that address does not decode as its own script hash under its network |
| `BlindedAddressCodec.DecodeUnderForeignNetwork` | NBitcoin/BitcoinBlindedAddress.cs:40-42 | a payload that does not start with the expected network's BLINDED_ADDRESS prefix, or a network without that prefix, is rejected with `Format` |
| `BlindedAddressCodec.TypeLeadsPayload` | NBitcoin/BitcoinBlindedAddress.cs:90-96 | an address's `Type` is BLINDED_ADDRESS, the kind whose version bytes lead its payload |

## Left out

- Base58Check encoding and decoding: an external checksum codec. It is the parameters `Env.armor` and `Env.unarmor`. A checksum failure is `Err(Format)`, which is what the decoder throws.
- The extra `DecodeData` call at line 15 of the string constructor: it repeats a check that `Validate` already makes and has no other effect.
- `PubKey` construction and secp256k1 point validity: foreign cryptography. It is the predicate `Env.isValidKey`. An invalid key only skips the current network.
- `Network.GetNetworks()` and `GetVersionBytes`: global registry state. They are the sequence `Env.registry` and the optional prefixes of `Network`. When a prefix is missing during encoding, the registry throws; the model returns `Err(MissingVersionBytes(kind))`.
- The destination of the parts constructor is narrowed to `KeyId` and `ScriptId`. The source accepts any `TxDestination` and casts `GetAddress(network)` to `IBase58Data`; other destination kinds, and a failure of that cast, are not modelled.
- A null `network` argument to the parts constructor: it fails inside external code (`GetAddress`, `GetVersionBytes`). In the model, `network` is never null.
- `TxDestination.GetAddress`, `ScriptPubKey`, `UnblindedAddress` and `GeneratePaymentScript`: thin delegations to code outside this model. Encoding uses only the kind of address `GetAddress` would produce (`TxDestination.AddressType`).
- The `BitcoinAddress` base class: out of scope. The `Hash` and `BlindingKey` accessors are the fields `hash` and `blindingKey` of the `BitcoinBlindedAddress` datatype.
- Object identity: networks and addresses are values. "The same object" is modelled as equality.
