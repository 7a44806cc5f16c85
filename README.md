# Grace registration builder: the portable link and the configuration store

This project models the part of the event-registration builder that turns an
event's configuration into a shareable link and reads that link back. Opening
the link stores the configuration and shows its public form. The model covers
the encoding chain of that link:

- `JSON.stringify`
- UTF-8 (`TextEncoder`, RFC 3629)
- one Latin-1 character per byte, then `btoa` (RFC 4648 section 4)
- `encodeURIComponent` (ECMA-262)

It also covers the decoding chain:

- `URLSearchParams` (the application/x-www-form-urlencoded parser of the WHATWG URL standard)
- `decodeURIComponent`
- `atob`, a byte loop, then the non-fatal `TextDecoder`
- `JSON.parse`

Beyond the link it models the mount effect of `App.tsx`: hydration from a `data`
link, lookup from an `event` link, seeding an empty store and choosing the
default selection. It models the configuration store's `saveConfig` and
`deleteConfig`, and the builder's validation, edits, links and submissions
list. From the registration form it models the price, the name and email keys,
the submission record and its append, the Cash App URL and the label-keyed
answers.

Modules, one per file:

| module | file | models |
|---|---|---|
| `Types` | types.dfy | the records of types.ts |
| `Utf8` | utf8.dfy | `TextEncoder.encode`; `TextDecoder.decode`, which replaces ill-formed bytes with U+FFFD and drops a leading byte-order mark |
| `Base64` | base64.dfy | `btoa`, and `atob` as forgiving-base64 |
| `UriCodec` | uri.dfy | `encodeURIComponent`, `decodeURIComponent` |
| `SearchParams` | search.dfy | `new URLSearchParams(search)`, `has`, `get` |
| `Lists` | lists.dfy | `Array.prototype.filter` |
| `Json` | json.dfy | `JSON.stringify`/`JSON.parse` as a pair of functions (`Codec`); `ReadsBack` says parse reads back what stringify wrote for one configuration |
| `Storage` | storage.dfy | `localStorage` with its two keys; `fits` says whether a write stays within the quota |
| `App` | app.dfy | App.tsx |
| `Dashboard` | dashboard.dfy | components/AdminDashboard.tsx |
| `Form` | form.dfy | components/RegistrationForm.tsx |

Some inputs become parameters:

- random ids (`Math.random`) and timestamps (`Date.now`)
- the page's query string and base URL
- whether a storage write fits
- the email generator's reply
- the rendering of a number in a template string

React state is modelled as classes whose methods are the handlers: `App.State`,
`Dashboard.Builder` and `Form.RegistrationForm`. Most of the mount effect
becomes the function `App.Resolve`. The method `App.State.Mount` runs the
effect step by step and is proved equal to that function.

Where the code does something other than what its own structure evidently aims at, the model follows the code:

- **decodeURIComponent can crash the page.** `decodeURIComponent` (App.tsx:50) sits outside every `try`. A non-empty `data` value that is not valid percent-encoding, such as `?data=%25`, therefore throws out of the effect. The model gives `Crashed` (`App.ResolveCrashes`). The rest of the link path is written to absorb a bad link: `fromBase64` catches its own failure and returns null (App.tsx:8-18), a null result is skipped (App.tsx:51), and `JSON.parse` sits in a `try` that only logs "Malformed link" (App.tsx:52-73).
- **A rejected link skips the `event` lookup.** When `data` is non-empty but rejected, `event` is not consulted. Guest mode still holds, and nothing is selected. A non-empty store then shows "Registration Unavailable" (`App.IgnoredLinkKeepsState`). An empty store is seeded, and the seed is selected and shown even in guest mode (`App.SeedsEmptyStore`). The `event` branch is an `else if` of the `data` test (App.tsx:49 and 75), so only an absent or empty `data` reaches it.
- **The selection read at App.tsx:107 is always null.** The mount effect reads `selectedConfigId` from its first render, so it is always the initial null. The seed is therefore always selected. Outside guest mode the first entry replaces any selection.
- **Invalid UTF-8 is accepted.** `TextDecoder` is non-fatal, so bytes that are not UTF-8 decode to U+FFFD instead of failing (`Utf8.LoneTrailingByteIsReplaced`). The decoder also drops a leading U+FEFF, so the byte chain loses it (`Dashboard.LinkDropsLeadingBom`). JSON text starts with `{`, so the link never meets this case.
- **A failed save surfaces to the caller.** The `setItem` of `saveConfig` is unguarded. A write over the quota throws to the handler after the list in memory has changed. `deleteConfig` then skips its reselection.
- **Hydration and saving replace different entries.** Hydration replaces the first entry with the id. `saveConfig` replaces every entry with it. A falsy id (missing or empty) makes the link be ignored.
- **Quick links carry the id unescaped.** `getQuickLink` (components/AdminDashboard.tsx:161) appends the id to `?event=` without `encodeURIComponent`. Every id the builder makes is base-36 text, which reads back unchanged (`Dashboard.QuickLinkLoads`). An id holding '&', '+' or '%' would not. Such an id can arrive only from a config hydrated from a hand-made link. On an empty store the `event` lookup finds nothing, and the seeding that follows still shows the seed's form (`Dashboard.QuickLinkOnEmptyStore`, `App.SeedsEmptyStore`).
- **A failed submission write keeps the form sending.** When the write of a submission throws, the rest of `handleSubmit` never runs. The form then stays in its "sending" state.

## Model

| member | source | states |
|---|---|---|
| Utf8.EncodeChar | components/AdminDashboard.tsx:9 | `TextEncoder` writes 1 to 4 bytes per character, one exactly for ASCII |
| Utf8.Encode | components/AdminDashboard.tsx:9 | `TextEncoder.encode` writes 1 to 4 bytes per character; what it writes is read back by `Utf8.DecodeLossyEncode` |
| Utf8.EncodeAppend | components/AdminDashboard.tsx:9 | the encoding of a concatenation is the concatenation of the encodings |
| Utf8.StepOfEncoded | App.tsx:14 | the decoder reads back exactly the character the encoder wrote at the front, whatever follows |
| Utf8.DecodeLossy | App.tsx:14 | the non-fatal decoder never fails and writes at most one character per byte, at least one for non-empty input; inverted by `Utf8.DecodeLossyEncode` |
| Utf8.TextDecode | App.tsx:14 | `TextDecoder.decode` never fails and writes at most one character per byte; partner `Utf8.TextDecodeEncode` |
| Utf8.DecodeLossyEncode | App.tsx:14 | decoding inverts encoding on every string |
| Utf8.BomPrefix | App.tsx:14 | the encoding starts with EF BB BF exactly when the text starts with U+FEFF |
| Utf8.TextDecodeEncode | App.tsx:14 | `TextDecoder` reads back what `TextEncoder` wrote, for text not starting with U+FEFF |
| Utf8.TextDecodeDropsBom | App.tsx:14 | a leading U+FEFF is dropped by the trip, and only it |
| Utf8.LoneTrailingByteIsReplaced | App.tsx:14 | ill-formed bytes do not make the decoder fail: they read as U+FFFD |
| Base64.QuantumRoundTrip | components/AdminDashboard.tsx:14 | a group of 1 to 3 bytes encodes to alphabet digits that decode back to it |
| Base64.Encode | components/AdminDashboard.tsx:14 | the RFC 4648 encoding has four characters per started group of three bytes; inverted by `Base64.DecodeEncode` |
| Base64.Decode | App.tsx:9 | forgiving-base64 decoding, failing on a lone final digit or a character outside the alphabet; partners `Base64.DecodeEncode`, `Base64.AtobRejects` and `Base64.AtobRejectsForeign` |
| Base64.Btoa | components/AdminDashboard.tsx:14 | `btoa` succeeds exactly on a binary string, with four characters per started group of three; inverted by `Base64.AtobBtoa` |
| Base64.Atob | App.tsx:9 | `atob` succeeds exactly when the decoding does, and returns a binary string |
| Base64.UnpaddedRoundTrip | components/AdminDashboard.tsx:14 | the unpadded digits of any byte string are alphabet digits and decode back to it |
| Base64.EncodedAlphabet | components/AdminDashboard.tsx:14 | `btoa` writes only alphabet characters and '=' |
| Base64.DecodeEncode | App.tsx:9 | forgiving-base64 decoding inverts the encoding of every byte string |
| Base64.AtobBtoa | App.tsx:9 | `atob` accepts what `btoa` produced and returns the same binary string |
| Base64.AtobRejects | App.tsx:9 | examples: `atob` throws on a lone digit in the last group and on a '%' |
| Base64.AtobRejectsForeign | App.tsx:9 | `atob` throws on every string holding a character that is neither an alphabet digit, ASCII whitespace nor '=', wherever it stands |
| UriCodec.DecodeEncode | App.tsx:50 | `decodeURIComponent` inverts `encodeURIComponent` on every string |
| UriCodec.EncodeURIComponent | components/AdminDashboard.tsx:156 | the escaping of every character outside the unreserved set as %XX of its UTF-8 bytes; partners `UriCodec.DecodeEncode` and `UriCodec.EncodedIsPlain` |
| UriCodec.DecodeURIComponent | App.tsx:50 | the decoding, failing (URIError) on a malformed escape; partners `UriCodec.DecodeEncode` and `UriCodec.DecodeRejectsMalformedEscape` |
| UriCodec.DecodeWithoutEscapes | App.tsx:50 | text without '%' passes through `decodeURIComponent` unchanged |
| UriCodec.DecodeRejectsBareEscape | App.tsx:50 | example: a lone '%' makes `decodeURIComponent` throw |
| UriCodec.DecodeRejectsMalformedEscape | App.tsx:50 | `decodeURIComponent` throws on every string whose first '%' is not followed by two hex digits, whatever comes before or after |
| UriCodec.EncodedIsPlain | components/AdminDashboard.tsx:156 | `encodeURIComponent` writes only '%', hex digits and unreserved characters |
| SearchParams.IndexOf | App.tsx:45 | the first position of a character, or the length |
| SearchParams.Parse | App.tsx:29 | the pairs of `new URLSearchParams(search)`; partners `SearchParams.ParseSingle`, `Dashboard.UniversalQueryReadsToken` and `Dashboard.QuickQueryReadsId` |
| SearchParams.FormDecode | App.tsx:45 | the decoding of one name or value; partners `SearchParams.FormDecodeOfEncoded` and `SearchParams.FormDecodePlain` |
| SearchParams.Has | App.tsx:30 | `has(name)` holds exactly when some pair carries the name |
| SearchParams.Get | App.tsx:46-47 | `get(name)` is null exactly when `has(name)` fails |
| SearchParams.GetIsFirst | App.tsx:46-47 | `get` answers with the value of the first pair carrying the name |
| SearchParams.FormDecodeOfEncoded | App.tsx:45 | the query parser's decoding reads back what `encodeURIComponent` wrote |
| SearchParams.FormDecodePlain | App.tsx:45 | text with neither '%' nor '+' is not changed by the query parser's decoding |
| SearchParams.ParseSingle | App.tsx:45 | a query `?name=value` yields exactly the one decoded pair |
| Lists.Filter | App.tsx:123 | the kept elements: every one kept is from the list and passes, every passing one is kept |
| Lists.FilterAppend | App.tsx:123 | filtering distributes over concatenation, so order is kept |
| Lists.FilterKeepsAll | App.tsx:123 | a filter every element passes is the identity |
| Lists.FilterDropsOne | App.tsx:123 | filtering out the one rejected element removes exactly it and keeps the rest in order |
| Storage.LocalStorage.SetConfigs | App.tsx:119 | a write that fits replaces the list, one that does not throws and changes nothing; the other key is unchanged |
| Storage.LocalStorage.SetSubmissions | components/RegistrationForm.tsx:64 | the same for the submissions key |
| Storage.StoredConfigs | App.tsx:34-42 | a stored list is read as itself; a missing key or text that does not parse reads as [] |
| Storage.StoredSubmissions | components/RegistrationForm.tsx:52 | a missing key reads as []; text that does not parse throws |
| App.ToBytes | App.tsx:10-13 | one byte per character, its code reduced to 8 bits |
| App.CharCodesToBytes | App.tsx:10-13 | the decoding loop fills `bytes[i]` with the i-th character code for every i |
| App.ToBytesOfLatin1 | App.tsx:10-13 | the loop exactly inverts the encoder's one-character-per-byte loop |
| App.FromBase64 | App.tsx:7-19 | null exactly when `atob` throws; nothing else in it can fail |
| App.FromBase64OfEncoding | App.tsx:7-19 | on any base 64 encoding, `fromBase64` is the `TextDecoder` reading of the encoded bytes |
| App.IsGuestMode | App.tsx:28-31 | guest mode holds exactly when the query has a `data` or an `event` pair |
| App.ReadLink | App.tsx:49-73 | it throws exactly when `decodeURIComponent` does; an accepted config has a non-empty id |
| App.FindIndex | App.tsx:55 | `findIndex`: -1 exactly when no entry has the id, else the first entry that has it |
| App.Find | App.tsx:76 | `find`: none exactly when no entry has the id, else an entry with that id from the list |
| App.Resolve | App.tsx:33-110 | the mount leaves a non-empty list; a selection names a stored config; the public view always has a selection |
| App.ScreenOf | App.tsx:166-190 | guests never see the dashboard; a shown form is a stored config |
| App.ReplaceById | App.tsx:115 | the same length, every entry with the id replaced and the others unchanged |
| App.Upsert | App.tsx:113-116 | `saveConfig`'s list: replace by id when present, else append; partners `App.FindAfterUpsert`, `App.UpsertShape` and `App.UpsertIdempotent` |
| App.Remove | App.tsx:123 | `deleteConfig`'s list: no entry with the id is left, every kept entry is from the list, every entry with another id is kept; partners `App.FindAfterRemove` and `App.RemoveUnique` |
| App.Settle | App.tsx:83-109 | the end of the mount effect: an empty list becomes the seed, written and selected; outside guest mode the first entry is selected; partners `App.SeedsEmptyStore` and `App.DefaultSelection` |
| App.FirstId | App.tsx:126 | `newConfigs[0]?.id \|\| null`: the first id when the list is non-empty and that id is non-empty |
| App.State.constructor | App.tsx:21-31 | the initial state: no configs, no selection, admin view, no message; the guest flag from the query |
| App.State.Mount | App.tsx:33-110 | the effect's steps leave exactly the state and the storage write that `Resolve` describes |
| App.State.SaveConfig | App.tsx:112-120 | the list becomes the upsert; storage holds it when the write fits; nothing else changes |
| App.State.DeleteConfig | App.tsx:122-127 | the id is removed; a deleted selection moves to the new first id only when the write fits |
| App.State.Select | components/AdminDashboard.tsx:217 | the selection becomes the id and nothing else changes |
| App.State.SetView | App.tsx:141-153 | the view changes only outside guest mode, and to public only with a non-empty selected id (the truthy test of line 147); nothing else changes |
| App.FindAfterUpsert | App.tsx:112-120 | after saving, the id finds the saved config and every other id finds what it found before |
| App.UpsertShape | App.tsx:113-116 | an existing id is replaced in place with the length kept; a new id is appended at the end |
| App.UpsertIdempotent | App.tsx:112-120 | saving the same config twice is the same as saving it once |
| App.UpsertKeepsIdsUnique | App.tsx:112-120 | saving keeps the ids of the list distinct |
| App.FindAfterRemove | App.tsx:123 | after deleting, the id finds nothing and every other id finds what it found before |
| App.RemoveUnique | App.tsx:123 | with distinct ids, deleting removes exactly that one entry and keeps the rest in order |
| App.ResolveCrashes | App.tsx:49-50 | the mount crashes exactly when a non-empty `data` value makes `decodeURIComponent` throw |
| App.HydrateAppends | App.tsx:54-61 | a link to a new id appends it, keeps every earlier entry, writes the list, selects it, opens the form and sets the message |
| App.HydrateReplaces | App.tsx:62-69 | a link to a stored id replaces that entry at its index, writes the list, selects it and opens the form, without a message |
| App.IgnoredLinkKeepsState | App.tsx:49-74 | a rejected link changes nothing and skips the `event` lookup; a guest then sees "Registration Unavailable" |
| App.EventLookup | App.tsx:75-81 | without a usable `data`, `event` selects and opens the form exactly when the id is stored |
| App.SeedsEmptyStore | App.tsx:85-106 | an empty store is seeded with exactly the one default config, which is written and selected, even in guest mode |
| App.SeedingIdempotent | App.tsx:85-108 | a load after seeding reads the seed back, selects it and writes nothing |
| App.SeedShape | App.tsx:86-101 | the seed has id 'default-1' and two required fields, 'Full Name' and 'Email Address' |
| App.DefaultSelection | App.tsx:107-108 | outside guest mode the first stored config is selected and the dashboard shows |
| App.BannerNeverShown | App.tsx:59-60 | the loaded message is set only for guests in the public view, where the banner is not rendered |
| App.PublicViewShowsForm | App.tsx:177-186 | a mount that ends in the public view renders the selected config's form |
| Form.TotalPrice | components/RegistrationForm.tsx:38 | the chosen tier's price, else the base price |
| Form.DefaultEntry | components/RegistrationForm.tsx:24-29 | the first tier exactly when there are tiers |
| Form.LowerAscii | components/RegistrationForm.tsx:45-46 | `toLowerCase` on the ASCII letters, position by position |
| Form.FirstLabelWith | components/RegistrationForm.tsx:45-46 | -1 exactly when no lower-cased label contains the word, else the first field whose label does |
| Form.KeyFor | components/RegistrationForm.tsx:45-46 | the key is the fallback or the non-empty label of one of the fields |
| Form.NameKey | components/RegistrationForm.tsx:45 | the name key; partners `Form.NameKeyIsFirstMatch` and `Form.NameFallbacks` |
| Form.EmailKey | components/RegistrationForm.tsx:46 | the email key; partners `Form.EmailKeyIsFirstMatch` and `Form.EmailFallback` |
| Form.RegistrantName | components/RegistrationForm.tsx:47 | never empty: a non-empty text answer under the key as it is, a checked box as 'true', and 'Guest' when the answer is missing, empty text or an unchecked box |
| Form.EntryLabel | components/RegistrationForm.tsx:57 | the chosen tier's label when it is non-empty, else 'General Entry' |
| Form.NewSubmission | components/RegistrationForm.tsx:53-63 | the record has the config's id, is unpaid, and carries the total, the entry label and the answers |
| Form.StripDollar | components/RegistrationForm.tsx:74 | at most one leading '$' is removed, and one is removed when present |
| Form.PaymentUrl | components/RegistrationForm.tsx:74-75 | the Cash App address with the stripped tag and the rendered amount; partner `Form.StripsOneDollar` |
| Form.Entered | components/RegistrationForm.tsx:95 | the field's label gains the new value (a boolean for a checkbox) and every other answer is kept |
| Form.RegistrationForm.constructor | components/RegistrationForm.tsx:11-29 | empty answers, the default tier chosen, nothing submitted |
| Form.RegistrationForm.Input | components/RegistrationForm.tsx:95 | only the answers change, as `Entered` says; the tier, menu choice, allergies, payment flag and submission state are stated unchanged |
| Form.RegistrationForm.ChooseEntry | components/RegistrationForm.tsx:291 | the chosen tier becomes the selection and nothing else changes |
| Form.RegistrationForm.ChooseFood | components/RegistrationForm.tsx:312 | the menu choice becomes the selection and nothing else changes |
| Form.RegistrationForm.EnterAllergies | components/RegistrationForm.tsx:328-334 | the allergies text is set when the config asks for it, and nothing else changes |
| Form.RegistrationForm.HandleSubmit | components/RegistrationForm.tsx:40-70 | exactly one record is appended after the stored ones, carrying the answers, tier, menu choice and allergies held before the submit, and written before the emails are awaited; a read or write that throws stops it; the entered values and the payment flag stay |
| Form.RegistrationForm.HandlePayment | components/RegistrationForm.tsx:72-78 | the URL is the Cash App address with the stripped tag and the rendered current total: the chosen tier's price, else the base price; only the payment flag changes |
| Form.ContainsAt | components/RegistrationForm.tsx:45 | a word found at some position is contained |
| Form.NameKeyIsFirstMatch | components/RegistrationForm.tsx:45 | the name key is the label of the first field whose lower-cased label contains 'name' |
| Form.EmailKeyIsFirstMatch | components/RegistrationForm.tsx:46 | the email key is the label of the first field whose lower-cased label contains 'email' |
| Form.EmailFallback | components/RegistrationForm.tsx:46 | with no such label the email key is 'Email Address' |
| Form.NameFallbacks | components/RegistrationForm.tsx:45-47 | with no such label the key is 'Full Name', and with no answer the registrant is 'Guest' |
| Form.UpperCaseLabelMatches | components/RegistrationForm.tsx:45 | the match ignores case: 'Your NAME' is the name field |
| Form.StripsOneDollar | components/RegistrationForm.tsx:74-75 | '$$grace' pays '$grace'; a tag without '$' is used as it is |
| Form.EnteredKeepsOthers | components/RegistrationForm.tsx:95 | an input sets exactly one key and keeps every other answer |
| Dashboard.BinaryOf | components/AdminDashboard.tsx:9-13 | the loop writes one character per byte, its code equal to the byte |
| Dashboard.ToBase64 | components/AdminDashboard.tsx:8-15 | `toBase64`; its meaning is stated by `Dashboard.ToBase64IsEncoding` and its inverse by `Dashboard.LinkRoundTrip` |
| Dashboard.ToBase64IsEncoding | components/AdminDashboard.tsx:8-15 | `toBase64` is the base 64 encoding of the UTF-8 bytes |
| Dashboard.LinkRoundTrip | App.tsx:7-19 | `fromBase64(toBase64(s)) == s` for every text not starting with U+FEFF |
| Dashboard.LinkDropsLeadingBom | App.tsx:14 | a leading U+FEFF is the one thing the trip loses |
| Dashboard.Errors | components/AdminDashboard.tsx:67-72 | at most two messages; the title message exactly for a blank or placeholder title; the tag message exactly for a blank tag |
| Dashboard.CollectErrors | components/AdminDashboard.tsx:67-72 | the pushes produce exactly the list `Errors` describes |
| Dashboard.Patched | components/AdminDashboard.tsx:175 | `{ ...f, ...updates }`: the id kept, each key the patch leaves out kept |
| Dashboard.UpdateFields | components/AdminDashboard.tsx:175 | the same length; the fields with the id patched, the others unchanged |
| Dashboard.UpdateTiers | components/AdminDashboard.tsx:376-383 | the same length and ids; the tiers with the id get the new label or price, the others unchanged |
| Dashboard.RemoveAt | components/AdminDashboard.tsx:429 | exactly the index is dropped and the later entries move down; an index out of range drops nothing |
| Dashboard.WithChoice | components/AdminDashboard.tsx:422-423 | the copy holds the new value at the index and every other entry unchanged |
| Dashboard.Apply | components/AdminDashboard.tsx:174-203 | no edit changes the config's id |
| Dashboard.UpdateFieldTouchesOnlyThatField | components/AdminDashboard.tsx:174-179 | `updateField` changes only the fields with that id; count, order, ids and the other keys of the config are kept |
| Dashboard.AddFieldAppends | components/AdminDashboard.tsx:181-191 | `addField` appends exactly one empty, optional text field |
| Dashboard.RemoveFieldKeepsOthers | components/AdminDashboard.tsx:193-197 | `removeField` on a field whose id is unique drops exactly that field and keeps the others in order |
| Dashboard.RemoveFieldFilters | components/AdminDashboard.tsx:193-197 | after `removeField` a field is present exactly when it was present before and has another id |
| Dashboard.RemoveFoodDropsIndex | components/AdminDashboard.tsx:428-432 | removing a menu choice drops exactly that index |
| Dashboard.TierLabelTouchesOnlyThatTier | components/AdminDashboard.tsx:375-379 | renaming changes only the tiers with that id, and only their labels |
| Dashboard.TierPriceTouchesOnlyThatTier | components/AdminDashboard.tsx:382-386 | repricing changes only the tiers with that id, and only their prices |
| Dashboard.RemoveTierKeepsOthers | components/AdminDashboard.tsx:388-392 | removing a tier keeps exactly the tiers with other ids |
| Dashboard.Portable | components/AdminDashboard.tsx:153-155 | the payload is the local config, its logo blanked when the logo is left out |
| Dashboard.UniversalQuery | components/AdminDashboard.tsx:156-157 | the `?data=` query of the link; read back by `Dashboard.UniversalQueryReadsToken` and `Dashboard.UniversalLinkLoads` |
| Dashboard.UniversalLink | components/AdminDashboard.tsx:157 | the base address followed by that query |
| Dashboard.QuickLink | components/AdminDashboard.tsx:161 | the base address followed by `?event=` and the id; read back by `Dashboard.QuickLinkLoads` |
| Dashboard.EncodingNonEmpty | components/AdminDashboard.tsx:14 | a non-empty byte string encodes to a non-empty token |
| Dashboard.EncodedHasNoAmpersand | components/AdminDashboard.tsx:156 | the escaped token holds no '&', so it stays one query value |
| Dashboard.QueryOfOnePair | App.tsx:45-47 | a one-pair query whose name needs no decoding reads as that name and the decoded value |
| Dashboard.EscapedPairReadsBack | App.tsx:45-46 | a `?data=` query whose value went through `encodeURIComponent` reads back as the one pair `data` = that value |
| Dashboard.UniversalQueryReadsToken | components/AdminDashboard.tsx:156 | the query of a universal link reads back as the one pair `data` = the base 64 token |
| Dashboard.ReadLinkOfPayload | App.tsx:49-53 | a payload with an id, which the codec writes as an object and reads back, is accepted as exactly that config |
| Json.ReadsBackIsSatisfiable | App.tsx:53 | for every configuration some codec writes it as an object and reads it back, so the hypothesis of the link lemmas can be met |
| Dashboard.AcceptedLinkOpens | App.tsx:54-69 | an accepted link stores, writes and selects its config and opens the form |
| Dashboard.UniversalLinkLoads | components/AdminDashboard.tsx:153-158 | opening a universal link whose payload the codec reads back stores the payload, selects it and opens its form, whatever the store holds |
| Dashboard.LinksDifferOnlyInLogo | components/AdminDashboard.tsx:153-158 | the two universal links differ only in the payload's `logoUrl`, which is blanked |
| Dashboard.PlainIdNeedsNoEscape | components/AdminDashboard.tsx:161 | an id of unreserved characters holds no '&', '%' or '+' |
| Dashboard.QuickQueryReadsId | components/AdminDashboard.tsx:160-162 | a quick link's query reads as the one pair `event` = the id |
| Dashboard.QuickLinkLoads | components/AdminDashboard.tsx:160-162 | for an id of unreserved characters (`Dashboard.PlainId`, which every id the builder makes is) and a non-empty store, a quick link opens its event's form exactly when the store holds it, else "Registration Unavailable" |
| Dashboard.QuickLinkOnEmptyStore | components/AdminDashboard.tsx:160-162 | on an empty store a quick link to any plain id shows the seed's form, not "Registration Unavailable" |
| Dashboard.SubmissionsFor | components/AdminDashboard.tsx:62-65 | only records of the active event; it throws exactly when the stored text does not parse |
| Dashboard.SubmitShowsOnlyUnderItsEvent | components/AdminDashboard.tsx:62-65 | after a submission, its event's list gains it at the end and every other event's list is unchanged |
| Dashboard.NewEvent | components/AdminDashboard.tsx:32-45 | the builder's starting event 'New Event'; partner `Dashboard.FreshEventsNeedDetails` |
| Dashboard.NewGathering | components/AdminDashboard.tsx:226-238 | the event "+ Create Event" saves, 'New Gathering'; partner `Dashboard.FreshEventsNeedDetails` |
| Dashboard.FreshEventsNeedDetails | components/AdminDashboard.tsx:224-238 | a created event has both errors; the builder's starting event lacks only the tag |
| Dashboard.Builder.constructor | components/AdminDashboard.tsx:26-45 | the local copy is the selected config, else the 'New Event' default |
| Dashboard.Builder.Sync | components/AdminDashboard.tsx:48-52 | the local copy follows the selected saved config when there is one, else stays |
| Dashboard.Builder.Change | components/AdminDashboard.tsx:174-203 | an edit becomes the local copy and is saved through `saveConfig`; the selection, view, message and stored submissions stay |
| Dashboard.Builder.ChangeFood | components/AdminDashboard.tsx:421-427 | one menu choice is replaced and the config saved; the selection, view, message and stored submissions stay |
| Dashboard.Builder.HandleManualSave | components/AdminDashboard.tsx:112-125 | with errors nothing is saved; otherwise the config is saved and the status says whether the write fit; the stored submissions stay |
| Dashboard.Builder.LogoUpload | components/AdminDashboard.tsx:74-110 | a file over 1 MiB changes nothing; a failed read returns to idle; a read image becomes the logo, the list is updated and stored when the write fits, and the status is saved when it fits |
| Dashboard.Builder.CreateEvent | components/AdminDashboard.tsx:223-242 | 'New Gathering' is saved, and selected only if the save did not throw; the view, message and stored submissions stay |
| Dashboard.Builder.Delete | components/AdminDashboard.tsx:286 | `deleteConfig` on the local config's id; the view, message and stored submissions stay |
| Dashboard.EditSurvivesSync | components/AdminDashboard.tsx:48-52 | after an edit's save the saved list holds the edited copy, so the sync effect keeps the edit |

## Left out

- `JSON.stringify`/`JSON.parse` internals: they are a pair of function values (`Json.Codec`), and `Json.ReadsBack` states the round trip for the one configuration a lemma is about.
- Stored JSON that parses to something other than an array of configurations: the model reads such data as a list or as unparsable. A stored list's records are taken as well-formed, because the source does not validate them either.
- Lone surrogates: Dafny strings hold Unicode scalar values, so `encodeURIComponent`'s URIError on a lone surrogate and `TextEncoder`'s replacement of one are not modelled.
- `toLowerCase` beyond ASCII: `Form.LowerAscii` folds only A to Z.
- `parseFloat(...) || 0` on the price inputs: `SetBasePrice` and `SetTierPrice` take the number already parsed, and no arithmetic is done on prices.
- Form.RegistrationForm.HandlePayment: how a template string renders a number is the parameter `render`, not JavaScript's number-to-string conversion.
- The `details` string that `handleSubmit` passes to the email generator, and the unused `registrantEmail`.
- services/geminiService.ts: the generator is not part of this model. Its answer is the parameter `reply`, and `Form.FallbackEmails` holds its fallback texts (services/geminiService.ts:73-77). A partial answer is not modelled.
- The script generator in the builder, `robustCopy`, `openPublicView`, `window.open`, `alert` and `prompt`, tabs and modals: browser and presentation plumbing.
- Dashboard.Builder.LogoUpload: the `FileReader` is asynchronous; the model completes the read at once. The save runs inside the `setLocalConfig` updater (AdminDashboard.tsx:89-93), so a quota error does not reach the `catch` at line 96: the status is set to saved, and React then fails on the throwing updater. The model states the list update and the unchanged storage for that case, but nothing about the status or the failed render.
- `setTimeout` resets of the save status to idle after two seconds, and the copy feedback.
- React scheduling: effects run once in order, without StrictMode double runs. `useMemo` caching is not modelled. A state updater that throws is modelled as having applied the updates made before the throw.
- The constants table constants.tsx: styling only.
