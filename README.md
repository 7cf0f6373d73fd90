# emailBuilder-server: template store, block renderer and admission checks

This project models the core of the emailBuilder server:

- **The template document.** A template is an ordered sequence of typed blocks. A block's type is one of `heading`, `paragraph`, `member-card`, `button` and `image`. Its content is free-form and required, and its style is a string map that defaults to empty. A template has a required name and owner, and a favourite flag that defaults to false.
- **The user document.** A user has a trimmed name, an email that is trimmed, lower-cased and checked against the schema's regular expression, a password, and three template-id lists: `all`, `fav` and `recents`.
- **The block renderer.** `replaceValues` substitutes `{{key}}` placeholders as a left fold of global replaces. `renderBlock` picks a fixed markup fragment per block type; an unknown type gets the paragraph form. The render route joins the fragments with newlines inside a fixed HTML shell.
- **The template store.** Create, update, get-by-id and render are methods of a class holding the template and user collections. The class invariant ties them together: each template's flag agrees with its owner's `fav`, the lists have no duplicates, `recents` has at most five entries, `fav` and `recents` are drawn from `all`, and emails are unique.
- **The image admission checks.** Upload: at least one file, the 2 MiB bound, then the MIME whitelist. Delete: a non-empty public id, a substring ownership test on the user's folder, then the host's answer.

Modules, one file each:

- `Wrappers`: `Option`.
- `Text`: global literal replace and `join`.
- `Schema`: models/Template.js.
- `Users`: models/User.js.
- `IdLists`: the MongoDB array operators used on the id lists.
- `Render`: the renderer in routes/templates.js.
- `Store`: the handlers in routes/templates.js and routes/templateById.js.
- `Images`: routes/imageRoutes.js.

Identifiers are natural numbers drawn from a counter that never reuses a value; this stands in for ObjectId generation. A missing string field is modelled as the empty string, which Mongoose's `required` rejects in the same way. `isFavorite` and block content that may be absent are modelled as `Option`s.

Where the code and its documented behaviour disagree, the model follows the code, with two exceptions named below (the update order and the image width):

- The get-by-id 404 reports whether the id exists at all, so ownership failures do not fully hide existence.
- Update writes `fav` before it validates the template. `Store.UpdateAsWritten` follows this written order, and `Store.FavouriteFailureBreaksConsistency` shows what it breaks. `Store.TemplateStore.Update` is the corrected order: it validates first and writes nothing on failure (see Findings).
- Create pushes the new id to the front of `recents` without removing it first. The id is fresh, so this equals the move-to-front that update does (`IdLists.PushFrontFreshIsTouch`).
- The image arm of `renderBlock` reads `block.style?.width`. On a template loaded from the store, `style` is a Mongoose `Map`, so that lookup finds nothing and the route never emits a width. `Render.RenderBlock`, `Render.Document` and `Store.TemplateStore.RenderTemplate` render the evidently intended width. `Render.RenderLoadedBlock` is what the route renders for each block of a loaded template, and `Render.WidthIgnoredWhenLoaded` shows the difference (see Findings).

## Model

| member | source | states |
|---|---|---|
| Schema.ParseType | models/Template.js:4-8 | a stored `type` maps to a block type exactly when it is one of the five enum strings |
| Schema.Member | routes/templates.js:131-160 | property access on content yields a value exactly when the content is an object that has that member |
| Schema.StoreBlock | models/Template.js:13-17 | a validated block is stored with its type (in the enum) and content as given, its style as given, and a missing style as the empty map |
| Schema.CastBlocks | models/Template.js:3-18 | a block array casts exactly when every block has an enum type and some content; the cast keeps length and order, and each block is stored with its defaults |
| Schema.NewTemplate | models/Template.js:20-40 | a template is built exactly when the name is non-empty and every block validates; it is well-formed, keeps name, owner and block order, and `isFavorite` is true only when true was supplied |
| Users.SpaceEnd | models/User.js:8 | finds where the leading run of JavaScript whitespace ends: everything before is whitespace, the character there is not |
| Users.SpaceStart | models/User.js:8 | finds where the trailing run of JavaScript whitespace starts: everything after is whitespace, the character before is not |
| Users.Trim | models/User.js:8 | the result has no leading or trailing whitespace and is a contiguous slice of the input |
| Users.TrimIdempotent | models/User.js:8 | trimming twice is trimming once |
| Users.Lower | models/User.js:15 | lower-casing keeps the length, leaves no upper-case ASCII letter, maps each upper-case letter to its lower-case one and keeps every other character |
| Users.LowerIdempotent | models/User.js:15 | lower-casing twice is lower-casing once |
| Users.TrimLowerCommute | models/User.js:14-15 | trimming and lower-casing commute |
| Users.NormaliseEmail | models/User.js:14-15 | the `trim` and `lowercase` setters: idempotent (NormaliseIdempotent), the two steps commute (TrimLowerCommute), and NewUser stores and validates exactly this form |
| Users.NormaliseIdempotent | models/User.js:14-15 | normalising a normalised email changes nothing |
| Users.IndexOf | models/User.js:18 | returns the first index of the character, or -1 when it is absent |
| Users.LastIndexOf | models/User.js:18 | returns the last index of the character, or -1 when it is absent |
| Users.ValidEmail | models/User.js:16-22 | the email validator: equal both ways to the schema's regular expression (EmailRegexIsValid), with the examples EmailAcceptsMultiPartTld, EmailRejectsLongTld and EmailRejectsShortTld |
| Users.EmailRegexIsValid | models/User.js:18 | the hand-written recogniser accepts exactly the strings the validator's regular expression matches |
| Users.DomainRegexIsValid | models/User.js:18 | the domain part matches `\w+([\.-]?\w+)*(\.\w{2,3})+` exactly when it is a dotted word, a last `.`, then two or three word characters |
| Users.ChunksToShape | models/User.js:18 | a string matching `([\.-]?\w+)*` is empty or ends in a word character, with no two separators adjacent |
| Users.ShapeToChunks | models/User.js:18 | conversely, every string of that shape matches `([\.-]?\w+)*` |
| Users.EmailAcceptsMultiPartTld | models/User.js:18 | `a@b.co.uk` is accepted: the top-level domain may have more than one group |
| Users.EmailRejectsLongTld | models/User.js:18 | `a@b.info` is rejected: a top-level domain group has two or three letters |
| Users.EmailRejectsShortTld | models/User.js:18 | `a@b.c` is rejected: a one-letter top-level domain is too short |
| Users.Failures | models/User.js:3-26 | each path is reported exactly when its check fails, so the report is empty exactly when every check passes |
| Users.NewUser | models/User.js:3-26 | a user is accepted exactly when the trimmed name is non-empty, the normalised email is valid and a password is given; when accepted, it stores the trimmed name and normalised email with empty lists; when rejected, it names exactly the failing paths |
| Users.NewUserMatchesRegex | models/User.js:14-18 | acceptance is stated against the regular expression itself, applied after trim and lowercase |
| Users.NewUserIsStored | models/User.js:5-26 | an accepted user's stored fields are already in their validated, trimmed form |
| IdLists.AddToSet | routes/templateById.js:192 | `$addToSet` adds exactly the id; it keeps the existing prefix, adds no duplicate, and changes nothing when the id is present |
| IdLists.Pull | routes/templateById.js:193 | `$pull` removes every occurrence and nothing else: on a duplicate-free list containing the id it shortens it by exactly one; the order of the rest is kept, by the law PullConcat |
| IdLists.PullMultiset | routes/templateById.js:193 | `$pull` loses exactly the id's copies: every other id keeps its number of occurrences |
| IdLists.PushFront | routes/templates.js:40-44 | `$push` with `$position: 0` and `$slice: 5` puts the id first, shifts the rest, keeps at most five, and adds no duplicate when the id is fresh |
| IdLists.Touch | routes/templateById.js:209-220 | after the pull-then-push of an update, the id is first and only there; at most five entries remain, nothing new appears, and no duplicate is introduced |
| IdLists.PushFrontFreshIsTouch | routes/templates.js:40-44 | for a fresh id, the create push equals the update's move-to-front |
| IdLists.Dedup | routes/templateById.js:209-220 | keeping first occurrences preserves membership and leaves no duplicate |
| IdLists.RecentsAreMostRecent | routes/templateById.js:209-220 | after any sequence of touches from an empty list, `recents` is the five most recently touched distinct ids, most recent first |
| Text.ReplaceAll | routes/templates.js:176 | the global literal replace; its laws are the lemmas below: an absent pattern changes nothing (ReplaceAllAbsent), it distributes over a concatenation no match straddles (ReplaceAllConcat, ReplaceAllAround), an isolated match becomes the replacement (ReplaceAllAt, ReplaceAllSelf) |
| Text.ReplaceAllAbsent | routes/templates.js:176 | a global replace of a pattern that does not occur changes nothing |
| Text.ReplaceAllAround | routes/templates.js:176 | text that no match overlaps passes through a global replace unchanged, and each side is replaced on its own |
| Text.ReplaceAllAt | routes/templates.js:176 | a match that no other match overlaps is replaced by the replacement text, and each side is replaced on its own |
| Text.ReplaceAllSelf | routes/templates.js:176 | the pattern alone is replaced by exactly the replacement |
| Text.Join | routes/templates.js:223 | `join`: one more element adds one separator and that element (JoinSnoc) |
| Text.JoinSnoc | routes/templates.js:223 | joining one more fragment adds one separator and that fragment |
| Render.ReplaceValues | routes/templates.js:173-180 | `replaceValues` on a string, a left fold of global replaces over the keys in order: its fold laws are ReplaceValuesAppend and ReplaceValuesLastStep; untouched text and missing keys are ReplaceValuesNoPlaceholder and MissingKeySurvives; substitution of one key is ReplacesPlaceholder and SubstituteWhole; non-string content is ReplaceContent |
| Render.ReplaceValuesAppend | routes/templates.js:173-177 | substitution is a left fold: substituting `xs + ys` is substituting `xs`, then `ys` |
| Render.ReplaceValuesLastStep | routes/templates.js:175-177 | the last key is one global replace applied to the result of the earlier keys |
| Render.ReplaceValuesNoPlaceholder | routes/templates.js:175-177 | a string containing no key's placeholder is returned unchanged, and so is any string when `values` is empty |
| Render.PlaceholdersDisjoint | routes/templates.js:176 | placeholders of brace-free keys never overlap unless they are the same occurrence of the same key |
| Render.MissingKeySurvives | routes/templates.js:175-177 | a placeholder whose key has no value survives substitution verbatim wherever it stands; the text around it is substituted independently |
| Render.SubstituteWhole | routes/templates.js:175-177 | a string that is one placeholder becomes that key's value |
| Render.ReplacesPlaceholder | routes/templates.js:176 | a key's placeholder is replaced by its value verbatim, with no HTML escaping |
| Render.ReplaceContent | routes/templates.js:173-180 | string content is substituted, and any other content is returned unchanged |
| Render.ChainedExample | routes/templates.js:175-177 | a placeholder introduced by an earlier value is replaced by a later key, but not by an earlier one |
| Render.NoEscapingExample | routes/templates.js:176 | markup in a value is inserted as it is |
| Render.RenderBlock | routes/templates.js:110-171 | `renderBlock`: the per-type fragments are TextBlockShape (heading, paragraph, button), MemberCardMissingField (member card), ImageShape (image) and UnknownTypeIsParagraph (the default arm); object content is RecordContentUnchanged |
| Render.UnknownTypeIsParagraph | routes/templates.js:166-167 | a block of a type outside the enum renders exactly as a paragraph with the same content |
| Render.TextBlockShape | routes/templates.js:110-171 | heading, button and paragraph or unknown fragments are the substituted text inside their fixed markup |
| Render.RecordContentUnchanged | routes/templates.js:173-180 | object content in a heading is shown unsubstituted, as `[object Object]` |
| Render.MemberCardMissingField | routes/templates.js:125-146 | a member card whose content lacks `name` shows the text `undefined` in that place of the fixed card layout |
| Render.ImageShape | routes/templates.js:156-163 | an image's `url` and `alt` are substituted independently; the width attribute appears exactly when style `width` is non-empty, and is emitted unsubstituted |
| Render.RenderLoadedBlock | routes/templates.js:156-163 | `renderBlock` on a block of a loaded document, whose `style` entries are invisible to property access; WidthIgnoredWhenLoaded states what it loses |
| Render.WidthIgnoredWhenLoaded | routes/templates.js:156-163 | an image block with a non-empty width renders, once loaded, without its width attribute: shorter by exactly that attribute, so different from the intended fragment |
| Render.Fragments | routes/templates.js:200-202 | one fragment per block, in block order |
| Render.Document | routes/templates.js:204-226 | the HTML shell: the title is the name verbatim (TitleVerbatim), one more block appends a newline and its fragment to the body (AppendBlock); RenderTemplate returns it for an owned template |
| Render.TitleVerbatim | routes/templates.js:211 | the document title is the template name verbatim, never substituted |
| Render.AppendBlock | routes/templates.js:200-223 | appending a block appends a newline and its fragment to the document body |
| Render.HeadingExample | routes/templates.js:114-118 | a heading `Hi {{name}}` with name Sam renders as `<h2 class="text-2xl">Hi Sam</h2>` |
| Render.MissingValueExample | routes/templates.js:173-180 | with no values, the placeholder stays in the fragment |
| Render.ButtonExample | routes/templates.js:149-153 | a button whose text is a single placeholder shows the value, whatever it is, inside the fixed button markup |
| Store.CreateLists | routes/templates.js:34-48 | the `$push` of create: keeps the store consistent for a fresh id (CreateListsOk, CreatePreserves); Create states its three lists outright |
| Store.UpdateLists | routes/templateById.js:187-220 | the `fav` and `recents` writes of update: `all` kept, `fav` as UpdateFav, `recents` as Touch; keeps the store consistent (UpdateListsOk, UpdatePreserves) |
| Store.UpdateFav | routes/templateById.js:187-196 | `fav` changes only when `isFavorite` is given and differs from the stored flag; a flag that agreed with `fav` still agrees afterwards; no other id changes membership, and no duplicate appears |
| Store.PatchTemplate | routes/templateById.js:181-206 | only supplied fields change: a non-empty name, supplied content and a defined flag; the owner is kept, and a well-formed template with valid new content stays well-formed |
| Store.AddUserPreserves | models/User.js:13-54 | adding a user with empty lists, a fresh id and an unused email keeps the store consistent and emails unique |
| Store.CreatePreserves | routes/templates.js:23-48 | a successful create keeps the store consistent: the flag agrees with `fav`, the lists are duplicate-free, `recents` has at most five entries, and `fav` and `recents` are drawn from `all` |
| Store.UpdatePreserves | routes/templateById.js:181-220 | a successful update keeps the store consistent in the same sense |
| Store.TemplateStore.constructor | models/User.js:27-46 | the empty store is consistent |
| Store.TemplateStore.AddUser | models/User.js:3-54 | rejected with its failing paths exactly when validation fails, refused as a duplicate exactly when a valid user's normalised email is taken, added exactly otherwise; a refusal changes nothing; an addition stores exactly the validated user under a fresh id |
| Store.TemplateStore.Create | routes/templates.js:9-82 | each outcome holds exactly under its condition: 404 when the user is missing, 400 when the data is invalid, 500 when the user update fails, 201 otherwise; 404 and 400 change nothing; a 500 leaves both collections as before; on success the new template is stored, `all` gets the id appended, `fav` gets it appended exactly when true was supplied, `recents` becomes the id pushed to the front and cut to five, the counts are those of the new lists, and the store stays consistent |
| Store.TemplateStore.Update | routes/templateById.js:155-247 | each outcome holds exactly under its condition, checked in this order: 400 when nothing is supplied, 404 when the template is not the requester's, 500 when the content fails validation, 200 otherwise; every failure changes nothing; otherwise only supplied fields change, `all` is kept, `fav` follows a changed flag, the id moves to the front of `recents`, the post-state counts are reported, and the store stays consistent |
| Store.TemplateStore.Apply | routes/templateById.js:181-220 | the writes of a validated update: the patched template, the owner's lists as the update leaves them, the post-state counts, and the store stays consistent |
| Store.TemplateStore.Get | routes/templateById.js:10-85 | a template the requester owns is returned with its stored name, content and flag; otherwise 404, with `templateExists` telling whether the id exists and `userMatch` false |
| Store.TemplateStore.RenderTemplate | routes/templates.js:182-234 | the document of a template the requester owns, and nothing for any other id |
| Store.UpdateAsWritten | routes/templateById.js:155-247 | the update in its written order: when validation fails, the template is kept but `fav` has already been changed |
| Store.FavouriteFailureBreaksConsistency | routes/templateById.js:187-246 | in every consistent store, favouriting a non-favourite template with content that fails validation answers the failure, keeps the template as it was, puts its id in the owner's `fav`, and leaves the store inconsistent |
| Store.FavouriteWrittenBeforeFailure | routes/templateById.js:187-246 | a consistent store in which favouriting a template together with an invalid block leaves the template unflagged with its id in `fav` |
| Store.AsWrittenConsistentWhenValid | routes/templateById.js:155-247 | when the supplied content validates, the written order keeps the store consistent |
| Images.IsValidFileType | routes/imageRoutes.js:26-29 | true exactly for `image/jpeg`, `image/png`, `image/gif` and `image/webp` |
| Images.FileTypeExamples | routes/imageRoutes.js:26-29 | the comparison is exact: `image/svg+xml`, `IMAGE/PNG` and the empty type are refused |
| Images.Upload | routes/imageRoutes.js:32-106 | no files gives 400; files without an `image` field give 500; over 2 MiB gives 400 before the type is looked at; a bad type gives 400; an accepted file goes to folder `emailbuilder/` plus the user id, or gives 500 when the host fails |
| Images.SizeCheckedFirst | routes/imageRoutes.js:45-61 | a file that is both oversize and of a bad type reports the size error |
| Images.ExactLimitAccepted | routes/imageRoutes.js:45-46 | exactly 2 MiB is accepted, one byte more is not |
| Images.UploadStatusIsError | routes/imageRoutes.js:32-106 | the success status comes only from a stored upload |
| Images.Delete | routes/imageRoutes.js:109-150 | an empty id gives 400 first; an id not containing the user's folder gives 403; a host answer other than `ok` gives 400; a thrown host call gives 500; only an `ok` deletes |
| Images.OwnUploadsDeletable | routes/imageRoutes.js:69-122 | an image stored by an accepted upload, under any name in its folder, passes its uploader's ownership test |
| Images.OwnershipIsSubstring | routes/imageRoutes.js:122 | examples of the substring test: the folder may occur anywhere in the id, not only as a prefix; the folder of user `7` is refused for user `42`; but user `4` passes for an image in user `42`'s folder, since `emailbuilder/4` occurs in `emailbuilder/42/pic` |
| Images.RepeatedDeleteRefused | routes/imageRoutes.js:132-137 | a delete the host answers with anything but `ok` is a 400, so a repeated delete is not a success |
| Images.EmptyIdFirst | routes/imageRoutes.js:113-118 | an empty id is refused with 400 whoever asks and whatever the host would say |

## Left out

- Request parsing, HTTP headers, authentication and JSON bodies are left out, apart from the outcome codes. controllers/userController.js, middleware/auth.js, routes/userRouter.js and server.js are not part of this model. They handle bcrypt hashing and JWT signing, which are foreign calls.
- routes/renderTemplateRoutes.js is not part of this model. The earlier-mounted router's render route always answers first, so it is never reached.
- The debug routes (routes/templateById.js:88-153) and all console logging are left out. They are diagnostics with no effect on state.
- Persistence, the image host (Cloudinary) and temporary-file removal are left out. The host's success or failure, and the user-update success in create, are parameters.
- Template listing by category and template deletion are left out, because the modelled files do not implement them.
- Timestamps (`createdAt`, `updatedAt`), Mongoose ObjectId casting and its 400 for a malformed id are left out. So is strict mode's discarding of the unused top-level `style` in create.
- Concurrency is left out. Each request is one sequential step, so interleavings between the separate database writes are not modelled.
- Regular-expression details of `replaceValues` are left out. Keys are taken as literal text, so keys with regular-expression metacharacters and `$` patterns in values are not modelled. Nor are keys that are a number or a `n,m` pair: `{{1}}` then reads as a quantified `{`, so the source replaces `{}}` and leaves `{{1}}` in place, while `ReplaceValues` substitutes it. The placeholder lemmas ask for brace-free keys.
- Non-string values in `values` and a missing `values` object (a thrown error) are left out. So are numbers, booleans, arrays and `null` as block content: content is a string or an object.
- Render.RenderBlock: its image arm emits `style="width: …;"` for a non-empty `width` entry, which the route does not do for a loaded block (`Render.RenderLoadedBlock` is the route's rendering); the intended behaviour is modelled instead.
- Render.Document: built on `Render.RenderBlock`, so an image block with a width gets the width attribute that the route's document lacks.
- Store.TemplateStore.RenderTemplate: returns `Render.Document` of the owned template, so for an image block saved with a width it returns the width attribute the route never emits. The route's document for a loaded template is the same shell around the `Render.RenderLoadedBlock` fragments.
- Render.ImageShape: states the evidently intended rendering, where `style.width` is the style map's `width` entry. On a document loaded from the store, `block.style` is a Mongoose `Map`, whose entries are not properties, so `block.style?.width` is undefined and the width attribute is never emitted; that behaviour is `Render.RenderLoadedBlock` (see Findings).
- Users.Lower: lower-cases ASCII letters only; full Unicode case mapping is not modelled.
- Store.TemplateStore.Valid: the invariant does not restate that every stored user's fields are validated. AddUser ensures this for each user it adds (`StoredUser`), and no other operation changes those fields.
- Store.TemplateStore.Create: `isFavorite` is a real boolean, so any other truthy value is not modelled.
- Store.TemplateStore.Update: `isFavorite` is likewise a boolean or absent; a `null` or a string, which the source compares with `!==` and branches on by truthiness (routes/templateById.js:187-193), is not modelled.
- Store.TemplateStore.Create: a user update that throws (routes/templates.js:34-48 and 67-81) is not modelled. The source then answers 500, or 400 for a ValidationError, and does not delete the template it saved, which stays in the collection without being in its owner's lists. `userUpdateOk == false` models only the update that finds no user, which deletes the template again; the store invariant cannot hold on the thrown path.
- Images.Upload: only the `image` field's single file is considered; arrays of files under one field are not modelled.

## Findings

| source | as written | input that shows it | evidently intended | confidence | as-written member | corrected member |
|---|---|---|---|---|---|---|
| routes/templateById.js:187-206 | the owner's `fav` is written before the template update, which runs validators and can throw; the catch at lines 241-246 answers 500 without undoing the `fav` write | an update of a non-favourite template with `isFavorite: true` and `content: [{type: "video", content: "x"}]` | the flag and `fav` change together or not at all, so `isFavorite == (id in fav)` keeps holding | medium, not executed | Store.FavouriteFailureBreaksConsistency | Store.TemplateStore.Update |
| routes/templates.js:156-163 | the image arm reads the width as `block.style?.width`, but on a loaded document `style` is a Mongoose `Map` whose entries are reached only through `get`, so the property is undefined | an image block saved with `style: {width: "300px"}` and then rendered | the `style="width: 300px;"` attribute appears in the image tag | medium, not executed | Render.WidthIgnoredWhenLoaded | Render.ImageShape |
