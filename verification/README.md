# 3DPANNE site scripts — a Dafny model

This project models the two browser scripts of the 3DPANNE static site.

`scripts/admin.js` is the administration console. It loads the product and project collections (`data/products.json`, `data/projects.json`) through a hosting API's contents endpoint. It decodes them from base64 and UTF-8, fills an edit form from an entry, and validates and normalises a submitted form. It then writes the whole updated array back with the sha of the version it was loaded from, uploading a chosen product image first. It also deletes entries.

`scripts/site.js` is the public site. It caches JSON fetches and reads price texts as numbers. It filters and sorts the shop, sizes the price slider, and limits the services and home-page projects shown. It opens the project named in the address and fills the order page from an order link's query string. Its forms post by AJAX: on success a form may log the submission in local storage, resets while keeping the fields marked to be preserved, and calls its success callback.

Pure logic is modelled as functions with lemmas. Three kinds of code are modelled imperatively:

- the console state (`AdminState.Collection`), the fetch cache (`SiteState.JsonCache`), the local-storage slots (`SiteState.SubmissionStore`) and a bound AJAX form (`SiteState.AjaxForm`) are classes whose methods update fields;
- the byte loops of `toBase64` and `fromBase64` are methods with loop invariants;
- the `forEach` loops that build a payload and restore preserved fields are methods proved against the functions that specify them.

The network, the confirmation dialog, the clock, `JSON`, `TextEncoder`/`TextDecoder` and locale-dependent string functions are parameters.

Modules: `Wrappers` (Option, Result), `Text` (the JavaScript string rules used: white space, `trim`, `split`/`join`, `replace`, digit runs), `Seqs` (filter, take, find, insertion sort), `Base64` (`btoa` and forgiving-base64 `atob`), `Content` (product and project records), `AdminCodec`, `Hosting`, `AdminForms`, `AdminState`, `Price`, `Shop`, `Listing`, `SiteState`.

## Model

| member | source | states |
|---|---|---|
| Base64.Encode | scripts/admin.js:37 | The encoding of n bytes has 4·⌈n/3⌉ characters, each from the base64 alphabet or the padding sign `=` (RFC 4648 section 4). |
| Base64.Btoa | scripts/admin.js:37 | `btoa` succeeds exactly when every character of its input is a single byte (code below 256). |
| Base64.Atob | scripts/admin.js:42 | A successful `atob` always yields a binary string of single-byte characters. |
| Base64.DecodeSextetsOfSextets | scripts/admin.js:42 | Regrouping the 6-bit values of any byte sequence into bytes gives back exactly that sequence. |
| Base64.AtobEncode | scripts/admin.js:37-42 | Forgiving-base64 decoding of the base64 encoding of any byte sequence returns those bytes. |
| Base64.AtobBtoa | scripts/admin.js:37-42 | `atob(btoa(s)) == s` for every binary string `s`. |
| Base64.StripPaddingOfEncode | scripts/admin.js:42 | Removing the trailing `=` signs of an encoding leaves exactly the letters of its 6-bit values. |
| AdminCodec.Uint8 | scripts/admin.js:45 | Storing a character code below 256 in a `Uint8Array` keeps it unchanged. |
| AdminCodec.ToBase64 | scripts/admin.js:31-38 | The loop that builds the binary string one byte at a time computes the base64 of the text's UTF-8 bytes. |
| AdminCodec.FromBase64 | scripts/admin.js:40-48 | The loop that copies character codes into bytes computes the UTF-8 decoding of the newline-stripped base64. |
| AdminCodec.StoreCodes | scripts/admin.js:43-46 | The fresh `Uint8Array` holds, position by position, the byte of each character of the binary string. |
| AdminCodec.DecodeEncodedText | scripts/admin.js:31-48 | `fromBase64(toBase64(text))` is the text less a leading byte order mark (U+FEFF), which the default `TextDecoder` drops. So it is the text itself whenever the text does not start with U+FEFF. |
| AdminCodec.NewlineIgnored | scripts/admin.js:41 | A newline anywhere in the base64 content does not change the decoded text. |
| AdminCodec.NewlineRemoved | scripts/admin.js:41 | Removing newlines removes exactly the newline inserted between two parts. |
| Text.Trim | scripts/admin.js:363-369 | The trimmed text starts and ends with no white space, and is the input with only white space removed around it. |
| Text.TrimOfTrimmed | scripts/admin.js:444 | Trimming a text that is already trimmed changes nothing. |
| Text.TrimAfterSpace | scripts/admin.js:448 | Trimming `" " + s` gives back `s` when `s` is trimmed. |
| Text.Split | scripts/admin.js:443 | `split` yields at least one piece, and no piece contains the separator. |
| Text.JoinSplit | scripts/admin.js:442-453 | Joining the pieces of a split with the same separator rebuilds the text. |
| Text.SplitJoin | scripts/admin.js:298-300 | Splitting a join of separator-free pieces gives the pieces back. |
| Text.EraseConcat | scripts/site.js:19 | A global `replace` with "" of a character class distributes over concatenation. |
| Text.LeadingDigitsOf | scripts/site.js:20 | The leading digit run of digits followed by a non-digit is exactly those digits. |
| Seqs.Filter | scripts/site.js:330-337 | The kept elements all pass the test, and each passing element occurs as often as in the input; others are dropped. |
| Seqs.FilterIsSubsequence | scripts/site.js:330-337 | Filtering keeps the original relative order. |
| Seqs.Sort | scripts/site.js:339-351 | Sorting is a permutation of its input. |
| Seqs.SortSorted | scripts/site.js:339-351 | For a total preorder comparison, the sorted array is ordered. |
| Seqs.Find | scripts/site.js:180 | `find` gives none exactly when no element matches, and otherwise the first element that matches. |
| Seqs.Take | scripts/site.js:106 | `slice(0, k)` is a prefix of length min(k, length). |
| Hosting.ShaField | scripts/admin.js:93-95 | A write carries a `sha` field exactly when a non-empty sha is known, and then that sha. |
| Hosting.UpdateRequest | scripts/admin.js:87-95 | The write request keeps path and message, and carries the known sha under the same rule. |
| Hosting.UpdateRequestCarries | scripts/admin.js:88-92 | The base64 content of a write decodes back to the serialised document, less a leading U+FEFF, which JSON text never has. |
| Hosting.UpdateFile | scripts/admin.js:87-109 | `updateFile` succeeds exactly when the write is accepted, with the new sha; otherwise it fails with the server's message, or "Impossible de mettre à jour" and the path when there is none. |
| Hosting.UploadSha | scripts/admin.js:116-129 | An upload proceeds exactly when the probe found the file (its sha) or answered 404 (no sha); every other probe failure stops it before any write. |
| Hosting.UploadRequest | scripts/admin.js:131-139 | The upload request carries the path, message, base64 content and the sha from the probe. |
| Hosting.UploadBinaryFile | scripts/admin.js:111-146 | An upload succeeds exactly when the probe lets it proceed and the write is accepted, with the new sha; a failed probe's error is the result. |
| AdminForms.ImagePath | scripts/admin.js:357-360 | The image path is the trimmed custom path when it is not empty, else the chosen file under `images/products/`, else the fallback image; it is never empty. |
| AdminForms.DataUrlPayloadOf | scripts/admin.js:413 | The payload of a data URL is the text between its first and second comma. |
| AdminForms.ValidateProduct | scripts/admin.js:362-375 | A product form fails exactly when its trimmed reference, name or description is empty, with the fixed message; otherwise it gives the trimmed product with a non-empty image. |
| AdminForms.FormOfProduct | scripts/admin.js:278-285 | The edit form has no file chosen and a non-empty type (STL by default). |
| AdminForms.EditThenSaveProduct | scripts/admin.js:278-285 | Filling the form from a clean product and submitting it unchanged validates to that product, with type and image defaults applied. |
| AdminForms.ParseList | scripts/admin.js:442-453 | Every item of a parsed list is non-empty, trimmed and free of the separator. |
| AdminForms.ParseListOfPieces | scripts/admin.js:442-453 | When the split pieces trim to non-empty items, the parsed list is exactly those items. |
| AdminForms.HighlightsRoundTrip | scripts/admin.js:298 | Parsing the newline-joined highlights of the edit form gives the highlights back. |
| AdminForms.TagsRoundTrip | scripts/admin.js:299-300 | Parsing the comma-space-joined services or gallery gives the list back. |
| AdminForms.TrimKeepsOut | scripts/admin.js:444 | Trimming never introduces a separator. |
| AdminForms.ValidateProject | scripts/admin.js:436-461 | A project form fails exactly when its trimmed id, title or description is empty, with the fixed message; otherwise it gives the normalised project. |
| AdminForms.EditThenSaveProject | scripts/admin.js:293-302 | Filling the form from a clean project and submitting it unchanged gives back exactly that project. |
| AdminState.FetchFile | scripts/admin.js:73-85 | Loading succeeds exactly when the response is ok and its content decodes and parses, and carries the response's sha. |
| AdminState.SaveThenLoad | scripts/admin.js:81-92 | Loading the content a write sent gives back exactly the array that was written. |
| AdminState.RecordAt | scripts/admin.js:275-276 | An entry is edited exactly when the index is an integer inside the array and the entry there is not null. |
| AdminState.SpliceOne | scripts/admin.js:309-310 | `splice(index, 1)` removes the indexed entry, counts a negative index from the end and clamps it, and leaves the array alone past its end. |
| AdminState.SpliceOneRemovesOne | scripts/admin.js:306-310 | Deleting an existing position leaves one entry fewer, the same entries minus that one, and everything else in order. |
| AdminState.Upsert | scripts/admin.js:377-382 | A submission appends when nothing is edited; otherwise it replaces the edited position, changes nothing else, and pads with nulls when that position is past the end. |
| AdminState.UpsertSame | scripts/admin.js:377-382 | Saving the record already at the edited position leaves the array unchanged. |
| AdminState.EditThenSaveKeepsProducts | scripts/admin.js:274-285 | Editing a clean product and saving it unchanged writes back the same array. |
| AdminState.EditThenSaveKeepsProjects | scripts/admin.js:463-468 | Editing a clean project and saving it unchanged writes back the same array. |
| AdminState.Collection.constructor | scripts/admin.js:8-11 | A collection starts with no entries, no sha and nothing being edited. |
| AdminState.Collection.Load | scripts/admin.js:232-244 | A load replaces the entries and sha, with an empty array for a document that is not an array; a failed load changes nothing. |
| AdminState.Collection.Edit | scripts/admin.js:274-277 | The entry at the index, if any, is returned and becomes the one being edited; nothing else changes. |
| AdminState.Collection.Reset | scripts/admin.js:260-265 | Resetting the form ends editing and keeps entries and sha. |
| AdminState.Collection.Commit | scripts/admin.js:387-403 | Exactly one write is sent with the loaded sha. On success the entries and sha are replaced and editing ends; on failure (a stale sha included) the state is unchanged. |
| AdminState.Collection.Delete | scripts/admin.js:306-350 | A non-integer index or a refused confirmation changes nothing and sends nothing; otherwise the spliced copy is committed with the given message. |
| AdminState.DeleteProduct | scripts/admin.js:306-327 | A non-integer index or a refused confirmation changes nothing and sends nothing; otherwise the products without that entry are committed with the message "Suppression produit depuis admin". |
| AdminState.DeleteProject | scripts/admin.js:329-350 | A non-integer index or a refused confirmation changes nothing and sends nothing; otherwise the projects without that entry are committed with the message "Suppression projet depuis admin". |
| AdminState.ImageUpload | scripts/admin.js:409-418 | With no file chosen nothing is uploaded. With a file, the data URL's payload is uploaded to the image path with the message "Mise à jour image " and the file name; the result succeeds exactly when that upload does, with its sha, and otherwise carries its error. |
| AdminState.SubmitProduct | scripts/admin.js:352-430 | An invalid form or a failed image upload changes nothing; otherwise the upserted array is committed with the fixed message. |
| AdminState.SubmitProject | scripts/admin.js:432-491 | An invalid form changes nothing; otherwise the upserted array is committed with the fixed message. |
| AdminState.EditProduct | scripts/admin.js:274-287 | The form is filled from the indexed product when there is one, which becomes the one edited; entries and sha are kept and no write is sent. |
| AdminState.EditProject | scripts/admin.js:289-304 | The form is filled from the indexed project when there is one, which becomes the one edited; entries and sha are kept and no write is sent. |
| Price.Numeric | scripts/site.js:19-20 | Only digits and points reach `parseFloat`. |
| Price.ParseDecimal | scripts/site.js:20 | `parseFloat` gives NaN exactly when there is neither a leading digit nor a point followed by a digit; otherwise a non-negative value. |
| Price.ParsePrice | scripts/site.js:17-22 | A price is never negative, and is 0 when missing or unreadable. |
| Price.NoDigitsIsZero | scripts/site.js:17-22 | A price text without digits, such as "Sur devis", reads as 0. |
| Price.OnRequestSpecimen | scripts/site.js:21 | "Sur devis" reads as 0. |
| Price.ParseDecimalOf | scripts/site.js:20 | `parseFloat("w.f")` is the decimal value of w.f. |
| Price.CommaPrice | scripts/site.js:19-20 | "w,f €" reads as the decimal w.f. |
| Price.DigitsPrice | scripts/site.js:17-22 | A plain run of digits reads as the number it spells. |
| Price.ParseDecimalValue | scripts/site.js:20 | `parseFloat(w + "." + f + rest)` is the decimal value of w.f for digit runs w and f, not both empty, when `rest` does not start with a digit. |
| Price.ParseWholeValue | scripts/site.js:20 | `parseFloat(w + rest)` is the number the digits w spell when `rest` starts with neither a digit nor a point. |
| Price.NumericIgnores | scripts/site.js:19-20 | Inserting a character that is not a digit, point or comma anywhere in a price leaves the text given to `parseFloat` unchanged. |
| Price.Ignored | scripts/site.js:19-22 | Inserting a space, a euro sign, a letter or any other character that is not a digit, point or comma anywhere in a price does not change its value. |
| Shop.Filtered | scripts/site.js:330-337 | The shop keeps the products that match search, type and price, in their order, each as often as in the catalogue, and drops the rest. |
| Shop.PriceOrdersTotal | scripts/site.js:340-344 | Ordering by parsed price, either way, is a total preorder. |
| Shop.ApplyFilters | scripts/site.js:339-351 | The shown list is a permutation of the filtered one, ordered by price or by name as selected, and unchanged in order otherwise. |
| Shop.NameSorted | scripts/site.js:347 | Sorting by name gives a list ordered by a total comparison. |
| Shop.MaxFrom200 | scripts/site.js:286 | The slider's maximum is at least 200 and at least every price. |
| Shop.MaxFrom200Attained | scripts/site.js:286 | That maximum is 200 or one of the prices. |
| Shop.Ceil | scripts/site.js:287 | `Math.ceil` gives the least integer not below its argument. |
| Shop.RoundUpToTenBound | scripts/site.js:287 | Rounding up to a ten gives a multiple of ten, at least the value and less than ten above it. |
| Shop.SliderBound | scripts/site.js:285-288 | The slider maximum is a multiple of ten, at least 200, at least every price, and within ten of the highest. |
| Shop.InitialSliderKeepsAll | scripts/site.js:288 | With the slider at its initial value, the price criterion drops no product. |
| Listing.ParseInt | scripts/site.js:105 | `parseInt(…, 10)` is a number exactly when a digit run follows the white space and sign, and a positive result has no minus sign. |
| Listing.Decimal | scripts/site.js:105 | A numeral is a non-empty run of digits. |
| Listing.DecimalValue | scripts/site.js:105 | A numeral spells the number it was written from. |
| Listing.ParseIntDecimal | scripts/site.js:105 | `parseInt` reads a numeral back as its number. |
| Listing.ParseIntValue | scripts/site.js:105 | `parseInt` of white space, an optional `+` or `-`, a digit run and a rest not starting with a digit is the signed number of the digits, so " 3", "+3" and "3 items" all read as 3. |
| Listing.ParseSigned | scripts/site.js:105 | A sign followed by digits reads as the signed number of the digits, whatever non-digit text follows. |
| Listing.SpacesBeforeNumeral | scripts/site.js:105 | `parseInt` skips exactly the white space before a signed numeral. |
| Listing.ShownServices | scripts/site.js:105-106 | A container shows the first `limit` services for a positive integer limit, and all of them otherwise. |
| Listing.LimitShowsFirst | scripts/site.js:105-106 | `data-limit="k"` with positive k shows exactly the first k services. |
| Listing.NoLimitShowsAll | scripts/site.js:105-106 | A limit without digits (absent included) shows every service. |
| Listing.HomeProjects | scripts/site.js:140 | The home page shows the first three projects, or all when there are fewer. |
| Listing.RequestedProject | scripts/site.js:177-184 | No project opens without a non-empty `project` parameter; otherwise the first project with that id opens, and none when no id matches. |
| Listing.Param | scripts/site.js:378 | `get` gives none exactly when no pair has the name, and otherwise the value of the first such pair. |
| Listing.OrderSummaryOf | scripts/site.js:377-396 | Every field of the order summary is non-empty, and the hidden field joins reference and name. |
| Listing.OrderLinkSummary | scripts/site.js:301-305 | Following a card's order link shows that product, with the fixed default for each empty field. |
| Listing.ParamText | scripts/site.js:304 | An absent field set on the link becomes the text "undefined". |
| Listing.MissingPriceShowsUndefined | scripts/site.js:304 | A record with no price field leads to an order page that shows the price "undefined" instead of "Sur devis". |
| Listing.OrderDefaults | scripts/site.js:378-383 | An address without parameters shows every default. |
| SiteState.Fetched | scripts/site.js:8-14 | A fetch yields a value exactly when the response is ok and its body parses; a response that is not ok fails with "Impossible de charger" and the path. |
| SiteState.JsonCache.constructor | scripts/site.js:2 | The cache starts empty. |
| SiteState.JsonCache.FetchJson | scripts/site.js:4-15 | A cached path is answered from the cache without a request; otherwise one request is made, and only a successful result is cached. |
| SiteState.LastWinsKeys | scripts/site.js:58-61 | Building an object from key-value pairs defines exactly the keys of the kept pairs. |
| SiteState.LastWinsValue | scripts/site.js:58-61 | A key takes the value of its last kept pair. |
| SiteState.Entry | scripts/site.js:64 | The logged entry holds every submitted field and `createdAt`, which is the submission time. |
| SiteState.EntryContents | scripts/site.js:57-64 | Apart from `createdAt`, the entry has exactly the submitted names other than the honeypot `_gotcha`. |
| SiteState.EntryValue | scripts/site.js:58-61 | A name takes the value of its last occurrence in the submission. |
| SiteState.AfterStore | scripts/site.js:62-65 | A slot holding a log or nothing gains the new entry at the end; a slot whose content is not an array is left as it was; other slots are unchanged. |
| SiteState.SubmissionStore.Store | scripts/site.js:55-68 | Storing leaves the slots as `AfterStore` describes. |
| SiteState.BuildPayload | scripts/site.js:57-61 | The `forEach` loop builds exactly the payload object. |
| SiteState.FormEntries | scripts/site.js:45 | `FormData` holds at most one entry per control, each with a non-empty name. |
| SiteState.FormEntriesOfNamed | scripts/site.js:45 | The form data are exactly the name-value pairs of the named controls, in the order of the controls. |
| SiteState.NamedFieldListed | scripts/site.js:45 | Every named control contributes its name-value pair to the form data. |
| SiteState.EntryOfNamedField | scripts/site.js:45 | Every entry of the form data is the name-value pair of a named control. |
| SiteState.IndexOfName | scripts/site.js:74 | `querySelector` by name gives none exactly when the name is empty (`[name=""]` selects no unnamed control) or no field has that name, and otherwise the first such field. |
| SiteState.Restored | scripts/site.js:70-76 | Restoring keeps every field and changes only its value. |
| SiteState.PreservedKeepsValue | scripts/site.js:70-76 | The first field of a preserved non-empty name keeps the value of the last preserved field with that name. |
| SiteState.UnnamedReset | scripts/site.js:70-76 | A control without a name goes back to its default value, even when it is marked `data-preserve`. |
| SiteState.OthersReset | scripts/site.js:72 | A field whose name no preserved field has goes back to its default value. |
| SiteState.IndexOfSameNames | scripts/site.js:72-75 | Resetting values does not change which field a name selects. |
| SiteState.RestoreFields | scripts/site.js:70-76 | Collecting the preserved values, resetting and writing them back gives exactly the restored fields. |
| SiteState.CollectPreserved | scripts/site.js:70-71 | The loop collects the preserved values, last one winning, with each name listed once. |
| SiteState.WritePreserved | scripts/site.js:72-76 | Resetting then writing each preserved value into the first field of its name gives the written values. |
| SiteState.AjaxForm.constructor | scripts/site.js:24-31 | A new form has no callback and no listener. |
| SiteState.AjaxForm.Bind | scripts/site.js:24-36 | A given callback replaces the stored one, and a missing one leaves it (undefined becomes null). The submit listener is attached once, however often the form is bound. |
| SiteState.AjaxForm.ResetPreserving | scripts/site.js:70-76 | The form is reset except for its preserved fields; the callback and listener are unchanged. |
| SiteState.AjaxForm.Succeeded | scripts/site.js:50-79 | A successful submission logs the entry when the form names a store and leaves storage alone otherwise. It restores the fields, and calls the callback exactly when one is set. |

## Findings

| source | as written | input that shows it | evidently intended | confidence | as-written member | corrected member |
|---|---|---|---|---|---|---|
| scripts/site.js:304 | the order link sets `price` to the record's `price` as is | a product record without a `price` field: its card shows "Sur devis" (line 313) but the order page shows the price "undefined" | an absent price sends nothing, so the order page falls back to "Sur devis" like the card | moderate, not executed | Listing.MissingPriceShowsUndefined | Listing.OrderLinkSummary |

## Left out

- Rendering (product and project lists, cards, modals), status messages, `setStatus`, `clearStatus` and `toggleFormDisabled` are left out, because they only write to the page.
- Authentication and the token (`authenticate`, the `Authorization` header) are left out, because they only gate access to the console.
- The network is a parameter. The responses to `fetch` and the contents endpoint are function arguments, and promise ordering and concurrent requests are not modelled: two overlapping `fetchJson` calls for the same path both miss the cache.
- `JSON.parse` and `JSON.stringify` are a pair of functions with a round-trip requirement. The two-space indentation and the exact text of the file are not modelled.
- `TextEncoder` and `TextDecoder` are a pair of functions. Decoding what was encoded gives the text back less a leading U+FEFF, which the default decoder drops. UTF-8 itself is not modelled.
- A control with an explicit empty `name=""` attribute is not told apart from one with no name. Both have the name "".
- `toLowerCase` and `localeCompare` are parameters, because they depend on locale data.
- JavaScript numbers are exact reals and integers, so rounding of floating-point prices is not modelled.
- `confirm` is a boolean parameter, and `FileReader` is replaced by the data URL it produces.
- Shop.ApplyFilters: the stability of the browser's sort is not proved. Insertion sort is stable, but the contract states only permutation and order.
- Absent or non-string fields of a JSON record are modelled as "" everywhere except the order link finding above. A `null` entry of the catalogue, on which the shop would throw, is not modelled.
- URL percent-encoding and decoding of the order link are taken to cancel out, so a query is a list of decoded pairs.
- `form.reset()` restores each field to a default value. How the browser picks that default for each kind of control is not modelled.
- SiteState.FormEntries: only named text-like controls are modelled. Checkboxes, radio buttons, selects with several values and file inputs are not.
- The submission's `fetch` outcome is a parameter. The branch for a response that is not ok only sets status text, so it is left out.
- `initCommandForm`, `initOrderForm`'s preselection of the type, and the `if (!form) return` guards are left out, because they only touch the page.
- AdminState.Collection.Commit: the `content.sha` of a successful write's response is taken to be present.
- The repository's description speaks of a settings update that clears a featured project. `scripts/admin.js` has no settings file and no featured project, so the model follows the code and has none.
- `scripts/include.js` is not part of this model.
