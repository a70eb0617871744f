# Mock DRM plugin, modelled in Dafny

This project models the mock DRM and crypto plugin pair of the Android media
framework (`drm/mediadrm/plugins/mock/MockDrmCryptoPlugin.cpp`). The plugin is
a stand-in that a conformance test drives through the DRM plugin interface.
It performs no cryptography. Its core is the state of one `MockDrmPlugin`
instance:

- the list of open session ids, `mSessions`, searched first-match;
- a name-to-string map, `mStringProperties`;
- a name-to-bytes map, `mByteArrayProperties`.

Every DRM operation either checks that its session is open (`findSession`),
records its inputs under fixed `mock-*` property names, or returns as its
outputs the values the test stored under other `mock-*` names.

Files:

- `types.dfy` (module `DrmTypes`): bytes, the C `int` the license type is cast to, the status codes `OK` / `BAD_VALUE` (`Ok` / `BadValue`).
- `bytes.dfy` (module `ByteCompare`): `memcmp` and the byte-vector `operator<`.
- `format.dfy` (module `Format`): the `arrayToString` hex dump, the `%d` rendering of the license type, and the `mock-optparams` serialisation, each with a parser that reads it back.
- `factory.dfy` (module `MockFactory`): the factories' scheme check.
- `crypto.dfy` (module `MockCrypto`): the crypto plugin's one modelled query.
- `plugin.dfy` (module `MockDrm`): class `MockDrmPlugin` with fields `sessions`, `strProps`, `byteProps`; one method per plugin operation, each returning `Ok` or `BadValue`.
- `scenarios.dfy` (module `MockDrmScenarios`): call sequences on a fresh plugin, proved from the method contracts alone.

Quirks of the code that the model keeps:

- `findSession` is a prefix match, not full equality. A stored id matches when its first `|sessionId|` bytes equal `sessionId`. An empty id therefore matches the first open session.
- `openSession` appends 8 random bytes to whatever the caller's vector already holds. It does not overwrite it.
- The scheme check compares `sizeof(uuid)` bytes. That is the size of a pointer, not 16 (see Findings).
- `getLicenseRequest` and `getProvisionRequest` can fail after filling `request`. This happens when `mock-request` is set but `mock-defaultUrl` is not. `getLicenseRequest` also keeps its four `mock-*` writes when it fails.
- `%s` prints a key or value of the optional parameters only up to its first NUL character.
- Output containers are appended to, never cleared. In `getSecureStops` the caller's list gains two entries. In `queryLicenseStatus` the caller's map gains or overwrites two keys.

## Model

| member | source | states |
|---|---|---|
| `ByteCompare.Memcmp` | drm/mediadrm/plugins/mock/MockDrmCryptoPlugin.cpp:331 | the sign of `memcmp` over n bytes; zero exactly when the first n bytes agree |
| `ByteCompare.MemcmpNegative` | drm/mediadrm/plugins/mock/MockDrmCryptoPlugin.cpp:365 | `memcmp` is negative exactly when, at the first byte where the operands differ within n, lhs holds the smaller byte |
| `ByteCompare.MemcmpAntisymmetric` | drm/mediadrm/plugins/mock/MockDrmCryptoPlugin.cpp:365 | swapping the operands of `memcmp` negates its sign |
| `ByteCompare.MemcmpTransitive` | drm/mediadrm/plugins/mock/MockDrmCryptoPlugin.cpp:365 | a negative `memcmp` is transitive |
| `ByteCompare.MemcmpPrefixOnly` | drm/mediadrm/plugins/mock/MockDrmCryptoPlugin.cpp:365 | `memcmp` over n bytes depends only on the first n bytes of each operand |
| `ByteCompare.VectorLess` | drm/mediadrm/plugins/mock/MockDrmCryptoPlugin.cpp:364-366 | `operator<` as written: true when lhs is shorter, and otherwise exactly when lhs is below rhs followed by the bytes after it, at the first byte where they differ within lhs's size |
| `ByteCompare.VectorLessNotAsymmetric` | drm/mediadrm/plugins/mock/MockDrmCryptoPlugin.cpp:364-366 | `operator<` as written holds both ways for `00 00` and `01`, whatever bytes follow the shorter vector |
| `ByteCompare.VectorLessIsShortLex` | drm/mediadrm/plugins/mock/MockDrmCryptoPlugin.cpp:364-366 | when lhs is not longer than rhs, `operator<` as written is exactly the shortlex order |
| `ByteCompare.ShortLexLess` | drm/mediadrm/plugins/mock/MockDrmCryptoPlugin.cpp:364-366 | the corrected order: shorter vectors first, and vectors of equal size by the first byte where they differ |
| `ByteCompare.ShortLexIrreflexive` | drm/mediadrm/plugins/mock/MockDrmCryptoPlugin.cpp:364-366 | the corrected order never relates a vector to itself |
| `ByteCompare.ShortLexAsymmetric` | drm/mediadrm/plugins/mock/MockDrmCryptoPlugin.cpp:364-366 | the corrected order never holds both ways |
| `ByteCompare.ShortLexTransitive` | drm/mediadrm/plugins/mock/MockDrmCryptoPlugin.cpp:364-366 | the corrected order is transitive |
| `ByteCompare.ShortLexTotal` | drm/mediadrm/plugins/mock/MockDrmCryptoPlugin.cpp:364-366 | any two distinct vectors are related one way by the corrected order |
| `Format.Hex2RoundTrip` | drm/mediadrm/plugins/mock/MockDrmCryptoPlugin.cpp:348 | the two `%02x` digits of a byte read back as that byte |
| `Format.HexCellsLength` | drm/mediadrm/plugins/mock/MockDrmCryptoPlugin.cpp:347-349 | each byte adds exactly five characters (`0x`, two digits, a space) |
| `Format.HexCellsAt` | drm/mediadrm/plugins/mock/MockDrmCryptoPlugin.cpp:347-349 | byte i's text starts at offset 5·i of the cells, in index order |
| `Format.ArrayFormatAt` | drm/mediadrm/plugins/mock/MockDrmCryptoPlugin.cpp:344-352 | the dump has 5·n+3 characters; byte i is rendered at offset 5·i+2, after the leading `"{ "` |
| `Format.ArrayFormatInjective` | drm/mediadrm/plugins/mock/MockDrmCryptoPlugin.cpp:344-352 | two byte vectors with the same dump are equal |
| `Format.ArrayToString` | drm/mediadrm/plugins/mock/MockDrmCryptoPlugin.cpp:344-352 | the loop builds `"{ "`, one `"0x%02x "` per byte in order, then `"}"` |
| `Format.Decimal` | drm/mediadrm/plugins/mock/MockDrmCryptoPlugin.cpp:128-129 | the `%d` text starts with `-` exactly for negative values; the rest is nonempty decimal digits with no leading zero except for 0 itself |
| `Format.NatDecimalRoundTrip` | drm/mediadrm/plugins/mock/MockDrmCryptoPlugin.cpp:129 | the digits of a natural number are decimal digits without a leading zero and read back as the number |
| `Format.DecimalRoundTrip` | drm/mediadrm/plugins/mock/MockDrmCryptoPlugin.cpp:128-130 | the `%d` text stored as `mock-licensetype` reads back as the license type, negative values included |
| `Format.CStr` | drm/mediadrm/plugins/mock/MockDrmCryptoPlugin.cpp:134-136 | what `%s` prints of a string: a prefix with no NUL, ending just before the first NUL when there is one |
| `Format.CStrNoNul` | drm/mediadrm/plugins/mock/MockDrmCryptoPlugin.cpp:134-136 | a string without NUL prints whole |
| `Format.OptParams` | drm/mediadrm/plugins/mock/MockDrmCryptoPlugin.cpp:132-137 | the `mock-optparams` text is empty exactly when there are no parameters, and otherwise starts with `{` and ends with `}` |
| `Format.BuildOptParams` | drm/mediadrm/plugins/mock/MockDrmCryptoPlugin.cpp:132-137 | the builder loop yields the `mock-optparams` serialisation of the parameters in index order, each key and value cut at its first NUL |
| `Format.OptParamsCons` | drm/mediadrm/plugins/mock/MockDrmCryptoPlugin.cpp:133-137 | the serialisation is `{k0,v0}` followed by `,` and the rest, read front to back |
| `Format.IndexOf` | drm/mediadrm/plugins/mock/MockDrmCryptoPlugin.cpp:134-136 | reading back the text these lines write: the position of the first separator (`,` after a key, `}` after a value), or the text's length when it has none |
| `Format.ParseEntry` | drm/mediadrm/plugins/mock/MockDrmCryptoPlugin.cpp:134 | reading one `{key,value}` leaves a strictly shorter remainder |
| `Format.ParseEntryOf` | drm/mediadrm/plugins/mock/MockDrmCryptoPlugin.cpp:134 | a `{k,v}` entry with no `,` in k and no `}` in v reads back as (k, v) and what follows it |
| `Format.ParseEntriesOfOptParams` | drm/mediadrm/plugins/mock/MockDrmCryptoPlugin.cpp:132-137 | a nonempty serialisation reads back entry by entry as the same parameters |
| `Format.OptParamsRoundTrip` | drm/mediadrm/plugins/mock/MockDrmCryptoPlugin.cpp:132-138 | with no `,` in keys, no `}` in values and no NUL in either, the stored `mock-optparams` reads back as the parameters in index order |
| `Format.OptParamsStopsAtNul` | drm/mediadrm/plugins/mock/MockDrmCryptoPlugin.cpp:134-136 | a NUL cuts the key short: `("a\0b","1")` renders as `{a,1}` |
| `Format.OptParamsNotEscaped` | drm/mediadrm/plugins/mock/MockDrmCryptoPlugin.cpp:134-136 | no escaping: `("a,b","c")` and `("a","b,c")` both render as `{a,b,c}` |
| `MockFactory.IsCryptoSchemeSupported` | drm/mediadrm/plugins/mock/MockDrmCryptoPlugin.cpp:45-48 | true exactly when the first k bytes of the uuid, k being `sizeof(uuid)`, equal those of the mock uuid (same body at :57-60) |
| `MockFactory.MockUuidSupported` | drm/mediadrm/plugins/mock/MockDrmCryptoPlugin.cpp:39-48 | the mock uuid itself is always accepted |
| `MockFactory.ForeignUuidAccepted` | drm/mediadrm/plugins/mock/MockDrmCryptoPlugin.cpp:57-60 | with fewer than 16 bytes compared, a uuid differing in its last byte is accepted too |
| `MockFactory.IsSchemeSupportedFull` | drm/mediadrm/plugins/mock/MockDrmCryptoPlugin.cpp:39-40 | the intended check: true exactly when the uuid is the mock uuid |
| `MockFactory.FullWidthCheckIsIntended` | drm/mediadrm/plugins/mock/MockDrmCryptoPlugin.cpp:45-48 | the check as written with all 16 bytes compared is the intended check |
| `MockCrypto.RequiresSecureDecoderComponent` | drm/mediadrm/plugins/mock/MockDrmCryptoPlugin.cpp:372-376 | never requires a secure decoder, for any MIME type |
| `MockDrm.FirstMatch` | drm/mediadrm/plugins/mock/MockDrmCryptoPlugin.cpp:327-336 | the index of the first stored id that begins with the given id (no earlier one does), or kNotFound exactly when none does |
| `MockDrm.RemoveAt` | drm/mediadrm/plugins/mock/MockDrmCryptoPlugin.cpp:96 | `removeAt` drops entry i, keeps the ones before it and shifts the ones after it down by one |
| `MockDrm.EmptyIdMatchesFirst` | drm/mediadrm/plugins/mock/MockDrmCryptoPlugin.cpp:330-333 | an empty session id matches the first open session |
| `MockDrm.OpenedSessionFound` | drm/mediadrm/plugins/mock/MockDrmCryptoPlugin.cpp:81 | a just-added id is found; at its own index when no earlier id begins with it |
| `MockDrm.SecondCloseFinds` | drm/mediadrm/plugins/mock/MockDrmCryptoPlugin.cpp:87-98 | after a close, the same id is found again exactly when another open session begins with it |
| `MockDrm.OpenCloseRoundTrip` | drm/mediadrm/plugins/mock/MockDrmCryptoPlugin.cpp:72-98 | opening then closing an id no open session begins with restores the list, and a second close fails |
| `MockDrm.MockDrmPlugin.ShortIdInBounds` | drm/mediadrm/plugins/mock/MockDrmCryptoPlugin.cpp:74-81 | every stored id holds at least 8 bytes, so an id of at most 8 bytes never makes `findSession` read past a stored id |
| `MockDrm.MockDrmPlugin.constructor` | drm/mediadrm/plugins/mock/MockDrmCryptoPlugin.cpp:50-54 | a new plugin has no sessions and empty property maps |
| `MockDrm.MockDrmPlugin.FindSession` | drm/mediadrm/plugins/mock/MockDrmCryptoPlugin.cpp:327-336 | the scan returns the first index whose stored id begins with the session id, or kNotFound |
| `MockDrm.MockDrmPlugin.OpenSession` | drm/mediadrm/plugins/mock/MockDrmCryptoPlugin.cpp:72-85 | returns OK; the id is the caller's bytes plus exactly 8 random bytes; exactly that id is appended to the sessions; the property maps are untouched |
| `MockDrm.MockDrmPlugin.CloseSession` | drm/mediadrm/plugins/mock/MockDrmCryptoPlugin.cpp:87-98 | an unmatched id gives BAD_VALUE and no change; otherwise OK and only the first match is removed |
| `MockDrm.MockDrmPlugin.GetLicenseRequest` | drm/mediadrm/plugins/mock/MockDrmCryptoPlugin.cpp:101-160 | an unknown session gives BAD_VALUE and no change; otherwise `mock-initdata`, `mock-mimetype`, `mock-licensetype` (`%d`) and `mock-optparams` are written first; the call is OK exactly when `mock-request` and `mock-defaultUrl` are present; `request` and `defaultUrl` are taken from them; a failure keeps the writes |
| `MockDrm.MockDrmPlugin.ProvideLicenseResponse` | drm/mediadrm/plugins/mock/MockDrmCryptoPlugin.cpp:162-183 | OK exactly when the session is known and the response nonempty; only then is `mock-response` set to the response; the string map and the sessions are untouched |
| `MockDrm.MockDrmPlugin.RemoveLicense` | drm/mediadrm/plugins/mock/MockDrmCryptoPlugin.cpp:185-197 | OK exactly when the session is known; no state changes |
| `MockDrm.MockDrmPlugin.QueryLicenseStatus` | drm/mediadrm/plugins/mock/MockDrmCryptoPlugin.cpp:199-214 | OK exactly when the session is known; then the caller's map gains `purchaseDuration`="1000" and `licenseDuration`="100" and keeps its other entries; otherwise it is unchanged; plugin state unchanged |
| `MockDrm.MockDrmPlugin.GetProvisionRequest` | drm/mediadrm/plugins/mock/MockDrmCryptoPlugin.cpp:216-242 | OK exactly when `mock-request` and `mock-defaultUrl` are present; the outputs come from them; no state changes |
| `MockDrm.MockDrmPlugin.ProvideProvisionResponse` | drm/mediadrm/plugins/mock/MockDrmCryptoPlugin.cpp:244-255 | always OK; `mock-response` becomes the response, even an empty one |
| `MockDrm.MockDrmPlugin.GetSecureStops` | drm/mediadrm/plugins/mock/MockDrmCryptoPlugin.cpp:257-272 | always OK; the caller's list keeps its entries and gains exactly `81..89` then `91..99`; plugin state unchanged |
| `MockDrm.MockDrmPlugin.ReleaseSecureStops` | drm/mediadrm/plugins/mock/MockDrmCryptoPlugin.cpp:274-280 | always OK; no state changes |
| `MockDrm.MockDrmPlugin.GetPropertyString` | drm/mediadrm/plugins/mock/MockDrmCryptoPlugin.cpp:282-292 | OK with the stored string exactly when the name is present; otherwise BAD_VALUE and the output untouched |
| `MockDrm.MockDrmPlugin.GetPropertyByteArray` | drm/mediadrm/plugins/mock/MockDrmCryptoPlugin.cpp:294-305 | OK with the stored bytes exactly when the name is present; otherwise BAD_VALUE and the output untouched |
| `MockDrm.MockDrmPlugin.SetPropertyString` | drm/mediadrm/plugins/mock/MockDrmCryptoPlugin.cpp:307-315 | always OK; inserts or overwrites the name in the string map only |
| `MockDrm.MockDrmPlugin.SetPropertyByteArray` | drm/mediadrm/plugins/mock/MockDrmCryptoPlugin.cpp:317-325 | always OK; inserts or overwrites the name in the byte map only |
| `MockDrmScenarios.OpenCloseTwice` | drm/mediadrm/plugins/mock/MockDrmCryptoPlugin.cpp:72-98 | on a fresh plugin, open, close and close again give OK, OK, BAD_VALUE |
| `MockDrmScenarios.LicenseRequestReflects` | drm/mediadrm/plugins/mock/MockDrmCryptoPlugin.cpp:119-159 | with `mock-request` and `mock-defaultUrl` preset, the license request returns them, and the four inputs read back from their `mock-*` names (license type and parameters through their parsers) |
| `MockDrmScenarios.MissingRequestStillRecords` | drm/mediadrm/plugins/mock/MockDrmCryptoPlugin.cpp:125-147 | without `mock-request` the request fails, yet `mock-mimetype` and `mock-initdata` hold the inputs |
| `MockDrmScenarios.EmptyResponseRefused` | drm/mediadrm/plugins/mock/MockDrmCryptoPlugin.cpp:173-180 | an empty license response is refused and `mock-response` stays absent |
| `MockDrmScenarios.ProvisionResponseStored` | drm/mediadrm/plugins/mock/MockDrmCryptoPlugin.cpp:244-255 | a provisioning response reads back from `mock-response` |
| `MockDrmScenarios.PropertyStoresSeparate` | drm/mediadrm/plugins/mock/MockDrmCryptoPlugin.cpp:282-325 | a string property reads back as set; the byte map does not gain its name; a byte write under another name leaves it alone |

## Left out

- Locking (`Mutex::Autolock`) is not modelled: the model is single-threaded, and the lock serves only thread safety.
- `ALOGD` logging is not modelled, nor are the log-only formatters `vectorToString`, `stringMapToString` and `subSamplesToString`. `arrayToString` is modelled for its format only.
- `random()` in `openSession` is the caller-supplied parameter `random` (8 bytes). `sizeof(long)` is the parameter `longSize`, which must divide 8.
- `createDrmFactory`, `createCryptoFactory`, `createDrmPlugin` and `createPlugin` are not modelled: they only allocate. The constructor stands for a new plugin.
- `MockCryptoPlugin::decrypt` is not modelled: it only logs and returns OK.
- The internal order of `KeyedVector` and `SortedVector` is not modelled. The property stores and the `queryLicenseStatus` output are maps. The session list is a sequence, appended to by `openSession` and searched first-match.
- `mock-optparams` takes the optional parameters as a sequence of (key, value) pairs in the container's index order. That order comes from `KeyedVector`, which is not part of this model.
- Strings (`String8`) are sequences of characters. Their UTF-8 byte encoding is not modelled.
- The license type is taken as the C `int` it is cast to. The `LicenseType` enumeration is declared in a header that is not part of this model.
- MockDrm.MockDrmPlugin.FindSession: requires that no stored id is shorter than the session id (`InBounds`). The source would read past the stored buffer there, with undefined result. The same precondition is on every method that calls it (`CloseSession`, `GetLicenseRequest`, `ProvideLicenseResponse`, `RemoveLicense`, `QueryLicenseStatus`). Any id of at most 8 bytes meets it (`ShortIdInBounds`).
- ByteCompare.VectorLess: when lhs is longer than rhs, the bytes `memcmp` reads past rhs are the parameter `beyond`. What memory actually holds there is not modelled.

## Findings

| source | as written | input that shows it | evidently intended | confidence | as-written member | corrected member |
|---|---|---|---|---|---|---|
| drm/mediadrm/plugins/mock/MockDrmCryptoPlugin.cpp:45-48 | `memcmp(uuid, mock_uuid, sizeof(uuid))` compares pointer-size bytes, since the array parameter decays to a pointer (same at :57-60) | uuid `01 02 … 0f 00` with 4- or 8-byte pointers is reported as supported | compare all 16 bytes | not executed | `MockFactory.ForeignUuidAccepted` | `MockFactory.IsSchemeSupportedFull` |
| drm/mediadrm/plugins/mock/MockDrmCryptoPlugin.cpp:364-366 | `lhs.size() < rhs.size() \|\| memcmp(lhs, rhs, lhs.size()) < 0` runs `memcmp` even when lhs is longer, reading past rhs | lhs `00 00`, rhs `01`: lhs < rhs by bytes and rhs < lhs by length, so the relation is not a strict order | shortlex: `memcmp` only when the sizes are equal (`ShortLexLess`, proved irreflexive, asymmetric, transitive and total) | not executed | `ByteCompare.VectorLessNotAsymmetric` | `ByteCompare.ShortLexLess` |
