# A verified model of the archive writer and the tier lookup

This project models two parts of a small web application for patrons.

The first part is the service worker's ZIP writer (`client/service-worker.js`). It offers several files as one download. For each file, in order, it streams three things:

- a local file header;
- the file body, piped through a table-driven CRC-32 transformer;
- a data descriptor.

It then writes one central directory header per file and closes with the end-of-central-directory record. The archive is a "stored" one: nothing is compressed. General-purpose flag bit 3 is set, so the CRC and the sizes follow each body in its data descriptor. The record layouts follow sections 4.3.7, 4.3.9, 4.3.12 and 4.3.16 of PKWARE's APPNOTE.TXT. The bit layout of the MS-DOS time and date follows section 4.4.6; the day and month values written into the date do not (see below).

The second part is the server (`server/src/main.rs`) together with the response schema in `server/src/types.rs`:

- the token exchange, and the form it posts;
- the tier lookup: the first `included` entry of the configured campaign decides, and its trimmed title maps to Bronze, Silver or Gold;
- the two `/feed` handlers and the fixed strings they reply with;
- serde's derived decoders for the schema, including the untagged `Included` enum, which tries `Membership` before `Ignored`.

Modules, one per file:

- `ZipBytes`: the little-endian `DataView` writes and `Uint8Array.set`, the moving-offset writer that `buildLocalFileHeader`, `buildCentralDirectoryHeader` and `buildEndOfCentralDirectoryRecord` use (`buildDataDescriptor` writes at the fixed offsets 0, 4 and 8), and the output stream as a list of blocks.
- `Crc32`: the lookup table, the register update, and the class `Crc32Transformer` with its `crc` and `length` fields.
- `ZipHeaders`: the four records. Each has a byte-sequence function, lemmas that read every field back at its offset, and a builder method that writes a fresh array as the source does.
- `ZipArchive`: the loop of `zipResponse` as methods that write the whole archive. There is an `Archive` function that specifies the result, and layout lemmas: offsets, directory size and entry count.
- `Json`: parsed JSON values, and the rule serde uses to decode a derived struct. A struct decodes from an object in which every declared field occurs exactly once; unknown keys are skipped and a repeated field is an error. It also decodes from an array with exactly one element per field. A `Vec` decodes when every element does.
- `Types`: decoders for every struct and enum of `server/src/types.rs`. Encoders exist for `Membership`, `Included`, `Identity` and `AccessToken`, each with a round-trip lemma; the nested `Data`, `Campaign`, `Relationships` and `Attributes` are encoded inside `Membership`, and `Ignored` as the empty object inside `Included`.
- `Server`: `get_access_token`, `get_tier`, `post_feed` and `get_feed` as functions.
  - Each network exchange becomes a `Response` parameter: no usable answer, or the JSON body.
  - Each handler returns the requests it sent along with its reply.

Constants come from the code and agree with APPNOTE.TXT:

- the signatures `PK\x03\x04`, `PK\x01\x02` and `PK\x05\x06`;
- version 10, flag 8 and compression method 0;
- made-by bytes 63 and 3 (UNIX);
- record sizes 30, 12, 46 and 22;
- the polynomial 0xEDB88320.

Two behaviours are modelled as the code writes them, not as APPNOTE.TXT describes them.

- **CRC initial register.** `Crc32Transformer` starts its register at 0xdebb20e3 (service-worker.js:44); the standard CRC-32 starts at 0xFFFFFFFF.
  - `Crc32.AsWrittenNeverStandard` proves that the value written into the headers therefore differs from the standard CRC-32 for every input. `Crc32.StandardCrc32` is that standard value, defined bitwise.
  - `Crc32.EmptyInputCrc` computes the empty-input case: 0x2144DF1C where the standard value is 0.
  - The table-driven step itself agrees with the bitwise reference (`Crc32.UpdateIsBitwise`).
- **DOS date.** The date is packed from `getDay()` (the weekday) and the 0-based `getMonth()` (service-worker.js:235-236). APPNOTE.TXT asks for the day of the month and a 1-based month. `ZipHeaders.DateFieldsAsWritten` states what ends up in those fields.

`server/src/main.rs` does not use `types.rs`.

- **Strict schema in main.rs.** main.rs declares its own `Identity` and `Included` (main.rs:88-117). There `Included` is a plain struct with `relationships` and `attributes`, not the untagged enum of `types.rs`. So an entry of any other shape does not get skipped: it makes the whole identity response fail to decode. `get_tier` then fails, and `post_feed` replies "Tier request failed".
  - `Server.DecodeIdentity` models the strict schema.
  - `Types` models the tolerant, untagged schema of `types.rs`.
  - `Server.StrictImpliesTolerant` and `Server.ForeignEntryRejected` relate the two schemas.
- **Three titles.** The title match has exactly three arms (main.rs:142-146), and only those titles are modelled.

## Model

| member | source | states |
|---|---|---|
| ZipBytes.LE16 | client/service-worker.js:210-213 | `setUint16(_, v, true)` stores two bytes whose little-endian value is v modulo 2^16 |
| ZipBytes.LE32 | client/service-worker.js:218-221 | `setUint32(_, v, true)` stores four bytes whose little-endian value is v modulo 2^32 |
| ZipBytes.Set | client/service-worker.js:194-197 | `header.set(bytes, offset)` replaces exactly the bytes at offset .. offset+len and keeps the rest of the array |
| ZipBytes.SetUint8 | client/service-worker.js:312-315 | `setUint8(pos, v)` changes only the byte at pos, to v modulo 256, and keeps the rest of the array |
| ZipBytes.SetUint16 | client/service-worker.js:210-213 | `setUint16(pos, v, true)` changes only the bytes pos .. pos+2, to `LE16(v)`, and keeps the rest of the array |
| ZipBytes.SetUint32 | client/service-worker.js:262-264 | `setUint32(pos, v, true)` changes only the bytes pos .. pos+4, to `LE32(v)`, and keeps the rest of the array |
| ZipBytes.HeaderWriter.WriteBytes | client/service-worker.js:194-197 | appends the bytes to what was written and advances the offset by their length |
| ZipBytes.HeaderWriter.WriteU8 | client/service-worker.js:312-315 | appends one byte (v modulo 256) and advances the offset by 1 |
| ZipBytes.HeaderWriter.WriteU16 | client/service-worker.js:210-213 | appends the 16-bit little-endian encoding and advances the offset by 2 |
| ZipBytes.HeaderWriter.WriteU32 | client/service-worker.js:218-221 | appends the 32-bit little-endian encoding and advances the offset by 4 |
| ZipBytes.ByteStream.Write | client/service-worker.js:99-103 | `writeTo` appends the block unchanged to the stream's blocks and to its bytes |
| Crc32.BuildLookupTable | client/service-worker.js:34-37 | every entry i of the 256-entry table is eight rounds of `(c & 1) * 0xedb88320 ^ (c >>> 1)` starting from i |
| Crc32.TableSpotValues | client/service-worker.js:34-37 | the generated table is the standard reflected CRC-32 table: entry 0 is 0, entry 128 is the polynomial, entries 1 and 255 are 0x77073096 and 0x2D02EF8D |
| Crc32.Crc32Transformer.constructor | client/service-worker.js:43-47 | a new transformer has register 0xdebb20e3, length 0 and has consumed nothing |
| Crc32.Crc32Transformer.Transform | client/service-worker.js:55-61 | the register becomes the update of the old register by the chunk; length grows by exactly the chunk's length; the chunk is enqueued unchanged and is the only block added |
| Crc32.Crc32Transformer.Crc32 | client/service-worker.js:63-65 | `crc32()` is the complement of the register, i.e. the as-written CRC of every byte transformed so far |
| Crc32.UpdateConcat | client/service-worker.js:55-61 | feeding chunk a, then chunk b, leaves the same register as feeding a ++ b |
| Crc32.UpdateChunksFlatten | client/service-worker.js:55-61 | feeding any list of chunks one by one leaves the register of their concatenation |
| Crc32.StepIsBitwise | client/service-worker.js:56-58 | one table-driven step equals eight bitwise rounds of register xor byte |
| Crc32.UpdateIsBitwise | client/service-worker.js:56-58 | the table-driven register update over any input equals the bitwise reference update |
| Crc32.UpdateKeepsDifference | client/service-worker.js:56-58 | two different registers stay different after any input, so the start value matters for every input |
| Crc32.AsWrittenNeverStandard | client/service-worker.js:44 | because the register starts at 0xdebb20e3, `crc32()` differs from the standard CRC-32 of the same bytes for every input |
| Crc32.EmptyInputCrc | client/service-worker.js:63-65 | for empty input `crc32()` is ~0xdebb20e3 = 0x2144DF1C, while the standard CRC-32 is 0 |
| ZipHeaders.DosTime | client/service-worker.js:229-233 | the packed time fits 16 bits; its fields are stated by `ZipHeaders.DosTimeFields` |
| ZipHeaders.DosDate | client/service-worker.js:234-238 | the packed date fits 16 bits after `setUint16`'s truncation; its fields are stated by `ZipHeaders.DosDateFields` and `ZipHeaders.DateFieldsAsWritten` |
| ZipHeaders.DosTimeFields | client/service-worker.js:229-233 | the packed time holds seconds/2 in bits 0-4, minutes in bits 5-10 and hours in bits 11-15; an invalid date gives 0 |
| ZipHeaders.DosDateFields | client/service-worker.js:234-238 | the packed date holds the weekday in bits 0-4, the 0-based month in bits 5-8 and (year - 1980) modulo 128 in bits 9-15; an invalid date gives 0 |
| ZipHeaders.DateFieldsAsWritten | client/service-worker.js:234-238 | the day field written is at most 6 (a weekday) and a January file gets month 0 |
| ZipHeaders.DataDescriptor | client/service-worker.js:254-267 | the data descriptor is exactly 12 bytes |
| ZipHeaders.DataDescriptorFields | client/service-worker.js:262-264 | no signature; the CRC at 0 and the same length at 4 and 8, each a little-endian u32 |
| ZipHeaders.LocalFileHeader | client/service-worker.js:180-248 | the local header is exactly 30 bytes plus the name's byte length |
| ZipHeaders.LocalFileHeaderFields | client/service-worker.js:225-244 | signature PK\x03\x04; version 10, flags 8 and compression 0 at 4, 6 and 8; DOS time and date at 10 and 12; zero CRC and sizes at 14-25; name length at 26; zero extra length at 28; the name at 30 |
| ZipHeaders.CentralDirectoryHeader | client/service-worker.js:276-366 | the central header is exactly 46 bytes plus the name's byte length |
| ZipHeaders.CentralDirectoryHeaderFields | client/service-worker.js:335-361 | signature PK\x01\x02; bytes 63 and 3 at 4-5; the common fields at 6-15; CRC at 16; the length as both sizes at 20 and 24; name length at 28; zero extra, comment, disk and attribute fields; the local header offset at 42; the name at 46 |
| ZipHeaders.EndOfCentralDirectory | client/service-worker.js:373-428 | the end record is exactly 22 bytes |
| ZipHeaders.EndOfCentralDirectoryFields | client/service-worker.js:418-425 | signature PK\x05\x06; zero disk numbers; the entry count at both 8 and 10; the size at 12; the offset at 16; zero comment length |
| ZipHeaders.HeadersAgree | client/service-worker.js:335-354 | for the same name and time, the local and central headers agree on version, flags, compression, DOS time, DOS date, name length and name |
| ZipHeaders.BuildLocalFileHeader | client/service-worker.js:180-248 | the array built through the moving offset holds exactly the local header's bytes |
| ZipHeaders.BuildDataDescriptor | client/service-worker.js:254-267 | the three `setUint32` calls fill the 12-byte array with exactly the data descriptor |
| ZipHeaders.BuildCentralDirectoryHeader | client/service-worker.js:276-366 | the array built holds exactly the central header's bytes |
| ZipHeaders.BuildEndOfCentralDirectoryRecord | client/service-worker.js:373-428 | the array built holds exactly the end record's bytes |
| ZipArchive.PipeBody | client/service-worker.js:117-122 | piping the body through a fresh transformer forwards its bytes unchanged, and the transformer has consumed exactly the body |
| ZipArchive.WriteEntry | client/service-worker.js:111-141 | one iteration appends local header, body and data descriptor; its central header carries the body's CRC, its length and the given offset; offset grows by header + body + 12 |
| ZipArchive.WriteEntries | client/service-worker.js:107-142 | the loop appends every file's entry in order, collects exactly one central header per file, and ends with offset = sum of entry sizes |
| ZipArchive.WriteCentralDirectory | client/service-worker.js:144-148 | the second loop appends every central header in order, and its size is their total length |
| ZipArchive.WriteArchive | client/service-worker.js:107-158 | everything written to the response stream is exactly local section ++ central directory ++ end record |
| ZipArchive.CentralHeaderAt | client/service-worker.js:130-136 | the k-th central header is built from the k-th file, with the sum of the sizes (header + body + 12) of the earlier entries as its offset |
| ZipArchive.LocalSectionLength | client/service-worker.js:139-141 | the bytes before the central directory number exactly the sum of the entry sizes |
| ZipArchive.CentralLength | client/service-worker.js:144-148 | the central directory is exactly as long as the sum of its header sizes |
| ZipArchive.LocalEntryAt | client/service-worker.js:110-142 | the k-th file's entry sits in the archive at the sum of the earlier entry sizes |
| ZipArchive.LocalEntryFields | client/service-worker.js:113-128 | an entry is its local header, then the body unchanged, then the body's CRC and length twice |
| ZipArchive.CentralOffsetField | client/service-worker.js:130-141 | the offset field of the k-th central header holds the sum of the earlier entry sizes modulo 2^32, the wrap-around of `setUint32`, for every k |
| ZipArchive.ArchiveEntryAt | client/service-worker.js:130-141 | in the whole archive, entry k (local header, body, descriptor) sits at the sum of the earlier entry sizes |
| ZipArchive.CentralOffsetFindsEntry | client/service-worker.js:130-141 | following the offset field of the k-th central header leads to that file's local header, body and descriptor, provided the entries before it total less than 2^32 bytes |
| ZipArchive.CentralMatchesDescriptor | client/service-worker.js:124-136 | each central header repeats the CRC and sizes of its file's data descriptor |
| ZipArchive.EndRecordDescribesDirectory | client/service-worker.js:150-156 | the end record closes the archive; it counts the files, gives the central directory's size, and gives its offset, where the central directory indeed starts |
| Json.FindCounts | server/src/types.rs:23-27 | a derived struct's field lookup finds nothing, exactly one value, or a duplicate, as the key occurs 0, 1 or more times; a found value is that of every member with the key |
| Json.ObjectFieldsSpec | server/src/types.rs:23-27 | an object supplies a struct's fields exactly when each is found once, with the values in declaration order |
| Json.NoFields | server/src/types.rs:20-21 | a struct without fields accepts every object and the empty array, and nothing else |
| Json.DecodeListSpec | server/src/types.rs:8-11 | a `Vec` decodes exactly when every element does, and its k-th value is the decoding of the k-th element |
| Types.DecodeMembership | server/src/types.rs:23-27 | `Membership` decodes only from an object or a two-element array; `Types.MembershipShape` states exactly when, and `Types.MembershipRoundTrip` its inverse |
| Types.DecodeIncluded | server/src/types.rs:13-18 | the untagged enum yields `Membership` whenever that variant decodes, and `Ignored` only when it does not; `Types.IncludedVariants` gives both directions |
| Types.DecodeIdentity | server/src/types.rs:8-11 | an identity decodes only from a single `included` field holding an array, with one entry per element; `Types.ObjectEntriesDecode` and `Types.IdentityRoundTrip` state the rest |
| Types.DecodeAccessToken | server/src/types.rs:3-6 | a decoded token is the one string supplied for `access_token`; `Types.AccessTokenFromObject` states the converse |
| Types.DecodeString | server/src/types.rs:40-42 | a `String` field accepts exactly a JSON string, and yields it |
| Types.MembershipShape | server/src/types.rs:23-47 | a membership decodes exactly when `relationships.campaign.data.id` and `attributes.title` are there as strings, which it then carries |
| Types.MembershipRoundTrip | server/src/types.rs:23-47 | decoding an encoded membership gives it back |
| Types.IncludedVariants | server/src/types.rs:13-21 | whatever decodes as a membership decodes as `Membership`, never `Ignored`; an entry is `Ignored` exactly when it is not a membership but is an object or an empty array; it fails exactly when it is neither |
| Types.IncludedRoundTrip | server/src/types.rs:13-18 | both variants survive encoding and decoding |
| Types.ObjectEntriesDecode | server/src/types.rs:8-21 | a list of object entries never fails the identity, whatever their shape, and keeps one entry per element |
| Types.IdentityNeedsIncludedArray | server/src/types.rs:8-11 | a decoded identity from an object had exactly one `included` member, an array, with one entry per element |
| Types.IdentityRoundTrip | server/src/types.rs:8-11 | decoding an encoded identity gives it back, with the entries in order |
| Types.AccessTokenFromObject | server/src/types.rs:3-6 | an access token decodes from an object exactly when it has one `access_token` member and that member is a string, which is the token |
| Types.AccessTokenRoundTrip | server/src/types.rs:3-6 | decoding an encoded access token gives it back |
| Server.ParseTitle | server/src/main.rs:142-146 | a tier is returned only for a trimmed title equal to its title, and any other title gives "Unknown tier: " plus the trimmed title; `Server.ParseTitleSpec` gives the converse |
| Server.FindTier | server/src/main.rs:140-151 | a tier is found only when some entry belongs to the campaign, and every failure is a message; `Server.FirstMatchDecides`, `Server.LaterEntriesIgnored` and `Server.NoMatch` state which entry decides |
| Server.DecodeIdentity | server/src/main.rs:88-117 | main.rs's strict identity decodes only from a single `included` array, with one membership per element; `Server.StrictImpliesTolerant` and `Server.ForeignEntryRejected` compare it with types.rs |
| Server.GetAccessToken | server/src/main.rs:68-86 | the request is the form POST to the token URL; it yields a token exactly when the answer decodes as an `AccessToken`, and the token is that field; `Server.TokenFormSpec` and `Server.TokenFromAnswer` state the form and the answer |
| Server.GetTier | server/src/main.rs:126-152 | it panics exactly when "Bearer " + token is not a valid header value; otherwise it sends that header to the identity URL; on a decoded identity the result is exactly `FindTier`'s, and no answer or an undecodable one gives `RequestError` |
| Server.PostFeed | server/src/main.rs:47-61 | it sends the token request first and at most one more request, the identity request only after a token, and a panic sends nothing after the token request; `Server.TokenFailureStops`, `Server.PostFeedAfterToken`, `Server.PostFeedNamesTier` and `Server.PostFeedReplies` state the replies |
| Server.GetFeed | server/src/main.rs:36-45 | it sends only the token request and always replies; `Server.GetFeedSpec` states the reply |
| Server.TrimSpec | server/src/main.rs:142 | `trim` keeps the part of the title between whitespace-only ends, and that part neither starts nor ends with whitespace |
| Server.TrimPadded | server/src/main.rs:142 | conversely, `trim` removes exactly the whitespace padding around a string with non-whitespace ends, and an all-whitespace string trims to the empty string |
| Server.ParseTitleSpec | server/src/main.rs:142-146 | a title gives a tier exactly when, trimmed, it equals that tier's title; otherwise the error is "Unknown tier: " followed by the trimmed title |
| Server.PaddedTitle | server/src/main.rs:142-146 | whitespace around a tier's title does not change the tier |
| Server.CaseSensitive | server/src/main.rs:142-146 | "gold membership", padded or not, is the "Unknown tier" error: matching is case-sensitive |
| Server.FirstMatchDecides | server/src/main.rs:140-148 | the result is the title mapping of the first entry of the campaign, even when that title is unknown |
| Server.LaterEntriesIgnored | server/src/main.rs:140-148 | entries after the first entry of the campaign are never examined: appending any entries changes nothing |
| Server.NoMatch | server/src/main.rs:140-151 | with no entry of the campaign the result is "No tier found" |
| Server.StrictImpliesTolerant | server/src/main.rs:88-117 | what main.rs's own strict schema accepts, the untagged schema of types.rs accepts with the same entries, each a membership |
| Server.ForeignEntryRejected | server/src/main.rs:88-117 | one entry that is not a membership fails main.rs's schema, where types.rs keeps an object entry as `Ignored` |
| Server.TokenFormSpec | server/src/main.rs:69-75 | the token form is five pairs in the order code, grant_type, client_id, client_secret, redirect_uri, with values the code, "authorization_code" and the three configured values |
| Server.TokenFromAnswer | server/src/main.rs:76-85 | the exchange yields a token exactly when the answer has exactly one `access_token` member, a string, which the token is |
| Server.TokenFailureStops | server/src/main.rs:48-53 | when the token exchange fails, `post_feed` replies "Token request failed" and sends only the token request, so `get_tier` is never invoked |
| Server.PostFeedAfterToken | server/src/main.rs:47-61 | after a token, the identity request carries "Bearer " + token; the reply is the tier's Debug name or "Tier request failed"; a token the header refuses panics with no further request |
| Server.PostFeedNamesTier | server/src/main.rs:55-60 | the reply is a tier's Debug name exactly when the token exchange succeeded and the lookup returned that tier |
| Server.PostFeedReplies | server/src/main.rs:47-61 | `post_feed` replies "Token request failed", "Tier request failed", "Bronze", "Silver" or "Gold", or panics |
| Server.PostFeedEndToEnd | server/src/main.rs:47-61 | for any token answer that decodes to a valid header token and any identity answer that decodes, whose first entry of the campaign is titled for tier t, the reply is t's Debug name |
| Server.IdentityDocument | server/src/main.rs:88-91 | a document with `data` and `links` beside `included` decodes to the memberships of `included`: the other members are skipped |
| Server.GetFeedSpec | server/src/main.rs:36-45 | `get_feed` sends only the token request and replies with the token, or "Reqwest failed" when the exchange fails |

## Left out

- Fetching and streaming: `fetch`, `TransformStream`, `pipeThrough`/`pipeTo`, `e.waitUntil`, `Response` construction, the event listeners, and `writable.close()`. Each body is a given list of chunks, written in order; cancellation and errors while streaming are not modelled, and neither is the `catch` of `zipResponse`.
- `start()` and `flush()` of `Crc32Transformer` do nothing, and `Crc32TransformStream` only forwards `crc32()` and `length()`, so both are folded into `Crc32Transformer`.
- The lookup table is built once by `Crc32.BuildLookupTable` and passed to the transformer, instead of living in a module-level constant.
- `new Date(mtime)`: the local calendar fields (or an invalid date) are inputs, because converting epoch milliseconds depends on the host's time zone.
- `TextEncoder`: file names are their UTF-8 bytes.
- JavaScript numbers are 64-bit floats. The offsets and lengths here are unbounded integers, reduced modulo 2^16 or 2^32 exactly where `setUint16`/`setUint32` reduce them. The loss of precision above 2^53 is not modelled, and neither is ZIP64.
- ZipArchive.CentralOffsetFindsEntry: holds when the entries before the k-th total less than 2^32 bytes. For a later entry the source's 32-bit offset field wraps around, as `LE32` models, and no longer points at the entry.
- The query-string `JSON.parse` of the service worker's fetch handler is not part of this model.
- JSON text parsing and HTTP transport: serde decoders start from a parsed `Json.Value`, and a response that cannot be read or parsed is `Unanswered`. Number literals are kept as text, because no schema type reads a number.
- reqwest, axum routing, `ServeDir` and the tokio entry point. The two endpoints are fixed URLs, the answers are `Response` parameters, and the individual `reqwest::Error` values collapse into `RequestError`, since every handler maps them to a fixed string.
- The `lazy_static` environment reads and their `unwrap`: the configuration is the `Config` parameter.
- Server.ValidHeaderValue: states the rule of the http crate's `HeaderValue::from_str`, which is not part of this model. The failing `unwrap` in `get_tier` becomes a `Panicked` outcome, and the handler's reply is then `None`.
- The `Json<String>` and `Query<UrlParam>` extractors of axum: the code is a plain string parameter.
- The handlers' `Json<String>` replies (main.rs:36-61): a reply is modelled as the plain string inside `Json`. The body axum sends is that string's JSON encoding, in quotes and with escapes; the encoding is not modelled.
- client/dev-server.js, client/index.js, src/interop.js and client/src/Main.d.ts are not part of this model: they are a development proxy, browser storage and Elm port glue, and type declarations.
