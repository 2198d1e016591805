# MemeSignal decision core in Dafny

MemeSignal is a small Streamlit page. It tracks the USD price of a meme token
given by its contract address, and it warns when the price crosses an upper or
lower limit. All of its decisions live in `app.py`. This project models those
decisions as pure Dafny functions and proves properties about them:

- **Address classification** (`is_valid_address`), in module `Addresses`:
  - a text with a "0x" prefix and 42 characters is Ethereum;
  - otherwise a text that Base58-decodes to exactly 32 bytes is Solana;
  - anything else is invalid (the Python `False`), including every text on
    which the decoder raises.

  `Addresses.Classify` has no precondition, so it is total: it never raises.
- **Base58 decoding** (`base58.b58decode`), in modules `Base58` and `Positional`.
  It is written out, as the library defines it, from:
  - the Bitcoin alphabet;
  - one zero byte for each leading '1';
  - the rest read as a big-endian base-58 number and written out as the
    shortest big-endian byte string.

  An `Encode` is given beside it, and the two are proved inverse in both
  directions. So "classified Solana" is exactly "the Base58 text of a 32-byte key".
- **Canonical pair selection** (`get_meme_coin_data`), in modules `Json` and
  `Quotes`. These steps are modelled: the response checks; the comprehension
  that keeps pairs with a truthy `priceUsd` and `chainId` equal to the
  classified chain; `max` with the key `float(volumeUsd)`, where a missing
  volume counts as 0; and building the result record. Each exception the
  `except` turns into `None` is an `Option` failure. The selection is proved
  equal to an independent definition of the canonical pair, `IsMainPair`: the
  first kept pair, in response order, with the largest volume.
- **The alert decision** (the if/elif in `main`), in module `Alerts`. Module
  `Tracker` chains it to classification and fetching in the same order as
  `main`.

The code's collaborators are parameters:
- the HTTP request is `fetch: string -> Option<Response>`, where `None` means a
  transport error or timeout;
- `response.json()` is a `body: Option<Json>`, where `None` means a body that
  is not JSON;
- Python's `float()` applied to a string is `parse: string -> Option<real>`.

Prices and volumes are `real`. They are only compared, never computed with.

Behaviour of `app.py` that the model keeps as written:
- An unparseable `volumeUsd` on any kept pair makes the whole result `None`. It
  does not count as 0 (`Quotes.UnparseableVolumeNoQuote`).
- A Solana address is exactly 32 decoded bytes. No wider range is accepted.
- There is no check that the price is non-negative or finite.
- There is no alert state machine. The alert is decided afresh on every run of
  the script, and it fires on every run while its condition holds.
- There is no quote cache and no price-history fetch.

## Model

| member | source | states |
|---|---|---|
| Base58.DigitOf | app.py:46 | a character's digit is below 58, and '1' alone is digit 0 |
| Base58.DigitOfAlphabet | app.py:46 | the characters with a digit are exactly those of the Bitcoin alphabet "123456789ABCDEFGHJKLMNPQRSTUVWXYZabcdefghijkmnopqrstuvwxyz", and a character's digit is its position in it |
| Base58.DigitsOfText | app.py:46 | a text has digits exactly when every character is in the alphabet, one digit per character |
| Base58.Decode | app.py:46 | a decoded byte string starts with at least one zero byte per leading '1' of the text; its full behaviour is carried by `DecodeDefined`, `DecodeLeadingZeros`, `DecodeEncode` and `EncodeDecode` |
| Base58.DecodeDefined | app.py:44-50 | `b58decode` succeeds exactly when every character is in the Base58 alphabet, so a text containing '0' always raises |
| Base58.DecodeLeadingZeros | app.py:46 | the decoded bytes start with exactly as many zero bytes as the text has leading '1's |
| Base58.DecodeEncode | app.py:46 | decoding the Base58 text of any byte string gives that byte string back |
| Base58.EncodeDecode | app.py:46 | every text that decodes is the Base58 text of what it decodes to, so decoding is one-to-one |
| Base58.EncodeInAlphabet | app.py:46 | Base58 text never contains a character outside the alphabet |
| Positional.DigitsOf | app.py:46 | the shortest big-endian digit string of a number has no leading zero and denotes that number |
| Positional.DigitsOfValueOf | app.py:46 | writing out the value of a digit string with no leading zero gives that same string back |
| Addresses.Classify | app.py:40-51 | the address is Ethereum exactly when it has the prefix "0x" and 42 characters, and Solana exactly when it is not of that form and decodes, without raising, to 32 bytes; otherwise it is invalid (see also `EncodedKeyClassification` and `SolanaIsEncodedKey`) |
| Addresses.EthereumAnyTail | app.py:42-43 | any "0x" text of length 42 is Ethereum, whatever its other 40 characters are |
| Addresses.HexPrefixOtherLengthInvalid | app.py:42-51 | a "0x" text of any other length is invalid, because '0' is not a Base58 digit |
| Addresses.OffAlphabetInvalid | app.py:44-51 | a text with a character outside the alphabet is invalid unless it is of the Ethereum form; the decode error is caught |
| Addresses.EncodedKeyClassification | app.py:46-51 | the Base58 text of a byte string is Solana when the string is 32 bytes long and invalid for every other length |
| Addresses.SolanaIsEncodedKey | app.py:46-48 | every text classified Solana decodes to 32 bytes and is the Base58 text of those bytes |
| Json.Truthy | app.py:67-73 | Python's falsy values are exactly `None`, `False`, `0`, `""`, `[]` and `{}` |
| Json.GetOr | app.py:67-83 | `get` succeeds exactly on a dict, and gives the key's value when the key is present and the default otherwise |
| Json.Lookup | app.py:70-82 | `[]` succeeds exactly on a dict holding the key, and gives that key's value, which is also what `get` gives for that key |
| Json.ToFloat | app.py:76-83 | `float` gives a number itself, 1 or 0 for a boolean, reads a string with `parse`, and raises on `None`, a list or a dict |
| Quotes.Keep | app.py:70-71 | the comprehension's test raises exactly on a pair that is not a dict, and keeps a pair exactly when it is a dict whose `priceUsd` is present and truthy and whose `chainId` is the classified chain's name |
| Quotes.KeptIndices | app.py:70-71 | lists, in increasing order, the positions of all pairs with a truthy price and the classified `chainId`, and no other |
| Quotes.ValidPairs | app.py:70-71 | `valid_pairs` is exactly the kept pairs in response order; it is missing exactly when some pair is not a dict |
| Quotes.Volumes | app.py:75-76 | the keys of `max` are computed for every pair, one per pair; the list is missing exactly when some key raises |
| Quotes.VolumeKey | app.py:76 | the key of `max` raises on a pair that is not a dict, is 0 when `volumeUsd` is absent, and is `float(volumeUsd)` otherwise |
| Quotes.MaxFrom | app.py:75-76 | scanning on from a best-so-far position reaches a position whose key is largest and strictly larger than every key before it |
| Quotes.MaxByKey | app.py:75-76 | `max` picks a position whose key is largest and strictly larger than every key before it, so the first of equal maxima wins |
| Quotes.BuildQuote | app.py:78-85 | the record carries the classified chain, the parsed `priceUsd`, the `pairAddress`, both symbols, and `priceChange.h24` parsed (0 when either key is missing); it succeeds exactly when the pair is a dict whose `priceUsd` parses, which has a `pairAddress`, whose `baseToken` and `quoteToken` are dicts with a `symbol`, and whose `priceChange`, when present, is a dict whose `h24`, when present, parses (`Quotable`) |
| Quotes.ResponsePairs | app.py:63-68 | a pair list is obtained exactly for status 200 and a JSON object whose `pairs` is a non-empty list |
| Quotes.MainPairUnique | app.py:75-76 | there is at most one canonical pair |
| Quotes.MaxOfValidIsMainPair | app.py:70-76 | the pair that filter-then-`max` reaches is the canonical pair |
| Quotes.MainPairSelected | app.py:70-85 | whenever a canonical pair exists, the result is the record built from it, and there is a result exactly when that pair is `Quotable` |
| Quotes.SelectedIsMainPair | app.py:70-85 | every returned quote is built from the canonical pair, which is kept, whose `chainId` is the classified chain's name, and which has the first largest volume |
| Quotes.SelectPair | app.py:70-85 | a record from the pair list carries the classified chain, and is returned only when every pair is a dict and some pair is kept (see `MainPairSelected` and `SelectedIsMainPair` for which record) |
| Quotes.SelectQuote | app.py:59-85 | a record is returned only for a response that arrived and whose pair list was obtained; whenever a response arrives and its pair list is obtained, the result is exactly the selection from that list for the classified chain |
| Quotes.MainPairExists | app.py:70-76 | a canonical pair exists when every pair is a dict, some pair is kept and every kept volume parses |
| Quotes.MainPairConditions | app.py:70-76 | and a canonical pair exists only under those conditions |
| Quotes.NoKeptPairNoQuote | app.py:70-73 | when no pair has both a truthy price and the classified chain, the result is `None` |
| Quotes.UnparseableVolumeNoQuote | app.py:75-89 | an unparseable volume on any kept pair makes the result `None` |
| Quotes.NonObjectPairNoQuote | app.py:70-89 | a pair that is not a dict anywhere in the list makes the result `None` |
| Quotes.HighestVolumeWins | app.py:75-76 | a kept pair with a strictly larger volume than every other kept pair is chosen, wherever it stands |
| Quotes.MissingVolumesPickFirst | app.py:75-76 | when no kept pair reports a volume, all count as 0 and the first kept pair is chosen |
| Quotes.InvalidAddressNoQuote | app.py:55-57 | an unclassifiable address gives `None`, whatever the request would return |
| Quotes.RequestFailureNoQuote | app.py:59-68 | a transport error, a status other than 200, a body that is not JSON, or an absent or empty pair list gives `None` |
| Quotes.GetMemeCoinData | app.py:54-89 | a returned record's `chain` is the address's classification, and it is returned only when the request gave a response; for a classified address the result is exactly the outcome of requesting the tokens endpoint for it and selecting from the response (see `QuoteIsCanonical` and `CanonicalPairQuoted`) |
| Quotes.QuoteIsCanonical | app.py:54-85 | a quote's `chain` is the address's classification, the response holds a canonical pair for that chain, and the quote is the record built from that pair |
| Quotes.CanonicalPairQuoted | app.py:54-85 | conversely, for a classified address whose response has a pair list holding a canonical pair, the result is the record built from that pair, and there is a quote exactly when that pair is `Quotable` |
| Alerts.Decide | app.py:127-135 | an ABOVE alert carries the upper limit and a BELOW alert the lower limit |
| Alerts.AboveExactly | app.py:130-132 | the alert is ABOVE exactly when the upper limit is positive and the price is strictly greater |
| Alerts.BelowExactly | app.py:130-135 | the alert is BELOW exactly when ABOVE does not fire and the lower limit is positive and the price is strictly less |
| Alerts.AboveIgnoresLower | app.py:130-133 | when the upper limit fires, the result is the same for every lower limit |
| Alerts.EqualityNeverFires | app.py:130-135 | a price equal to a limit never fires that limit |
| Alerts.DisabledLimitsNeverFire | app.py:130-135 | a limit at or below zero never fires; with both off there is never an alert |
| Alerts.NoAlertExactly | app.py:127-135 | there is no alert exactly when neither positive limit is strictly crossed |
| Alerts.AlertsPersist | app.py:130-135 | a higher price keeps ABOVE firing, and a lower price keeps BELOW firing |
| Alerts.OverlappingLimitsPreferAbove | app.py:130-135 | when the upper limit lies below the lower one, a price between them is reported ABOVE |
| Alerts.OrderedBandBelow | app.py:130-135 | for 0 < lower <= upper, BELOW fires exactly when the price is below the lower limit |
| Tracker.MainRun | app.py:114-135 | a run stops on an invalid address exactly when classification fails, and stops on missing data exactly when the fetch gives `None` |
| Tracker.AlertOnlyOnFetchedQuote | app.py:114-135 | an alert is decided only on a fetched quote, from its price, for the chain the address was classified as |

## Left out

- `get_bell_sound` and `play_alert_sound` (app.py:9-37) are left out: an HTTP download and HTML/JS audio injection, pure I/O.
- The request's URL is modelled as a constant. The request goes through `fetch`. The 10-second timeout is left out: a timeout is just `fetch` returning `None`.
- `st.error` in the `except` branch (app.py:88) is left out. So are all other Streamlit output, the page setup, the sidebar inputs and the `.strip()` of the typed address (app.py:93-124, 137-152).
- The alert message text is left out: it is Python float formatting of the limit. The model keeps the limit in the `Alert` value instead.
- `time.sleep(10)` and `st.rerun()` (app.py:155-156) are left out: the host framework does the scheduling. Each run is one evaluation of `Tracker.MainRun`.
- Python's `float()` on strings is the `parse` parameter, not a reimplementation. IEEE-754 is not modelled: NaN and infinity, where `max` and the strict comparisons behave differently; rounding of JSON numbers; the overflow of very large JSON integers.
- How the body is parsed into JSON is left out. A JSON object is a `map`, so duplicate keys are not modelled.
- Base58.Decode: does not model the library's `rstrip()` of trailing whitespace, because the only caller shown strips the address first (app.py:112). Input given as bytes instead of a string is not modelled either.
- The `base58` package's own code is not part of this model. `Base58.Decode` follows the Bitcoin-alphabet convention described above.
- A per-address quote cache, a price-history fetch, an armed/triggered/cleared alert lifecycle and a configurable poll loop do not exist in `app.py`, so they are not modelled.
