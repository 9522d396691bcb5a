# noreply_sender_mail — a Dafny model of the API routes

noreply_sender_mail is a small Next.js application that sends a Markdown
mail, personalised per recipient, to a list of addresses over SMTP and
reports each delivery as a server-sent event. Recipients can be typed in or
drawn from a Notion database by role. Templates can be read from and saved
to a second Notion database. An optional one-time password, mailed to a
fixed address, guards the sender.

This project models the five API routes that hold that logic, as pure
functions over immutable values, and proves what the routes promise:

- `SendRoute.Post`: the bulk send. It gates on the admin password, then on
  the SMTP settings. It normalises the recipient list (`Normalise`) and
  substitutes `{{key}}` placeholders per recipient with a case-insensitive,
  sequential fold (`Placeholders`). Its dispatch loop (`Dispatch`) sends one
  mail and reports one event per addressed recipient, then a completion
  marker. `Mailer` holds the transport settings and the sender address.
- `NotionRecipients.Post`: picks the role property, builds the `or` filter,
  flattens each page's typed properties into a record with lower-case keys,
  aliases `mail` to `email`, and drops records without an address.
- `NotionTemplates.List` and `NotionTemplates.Post`: sort a page's
  properties into name, subject, body and type. They list named templates
  and create new ones with the type defaulting to `General`.
- `NotionRoles.Get`: looks up the role property, checks its type and returns
  its options. If no role property exists, it lists the properties, with a
  hint when the database looks like the template database.
- `Otp.Issue` and `Otp.Verify`: the one-time-password store.
  - Issue stores a six-digit code for five minutes and mails it.
  - Verify checks in a fixed order: absent, then expired, then wrong code.
  - A code is single-use. A wrong guess leaves the code usable.

`Js` models the JavaScript values and built-ins these routes depend on:
- truthiness, `String`, `Number`, `trim`, `toLowerCase`, `includes`, `split`
  and `join`;
- objects as insertion-ordered property lists.

Everything outside the process becomes a parameter:
- the SMTP transport: a function from the attempt number and the mail to
  delivered or rejected-with-message;
- the clock: the timestamp of the j-th event, and `Date.now()` for the OTP
  routes;
- `Math.random`: the drawn number;
- the Markdown renderer;
- Notion's responses: retrieved schemas, query results, and page creation;
- the body of every request: parsed fields, or the error reading them threw.

Behaviour the model follows as the code has it:
- In a list of strings, an entry without a comma gets the empty name, not an
  absent one. A bare string is not split on its comma.
- The send route does no `mail` aliasing and no filtering while it
  normalises. Records without an address are skipped in the loop.
- An array whose first element is a string but which holds a later
  non-string makes `trim` throw, so the route answers 500 before any mail
  is sent.
- A `null` or `undefined` entry in a list of objects makes the loop throw
  inside the stream. The mails before it are sent, and no completion marker
  follows (`closed` is false).
- With `ADMIN_PASSWORD` unset, a request without a password passes the gate
  (`undefined === undefined`). See `SendRoute.UnsetPasswordGate`.
- An OTP code stays stored even when mailing it fails.

## Model

| member | source | states |
|---|---|---|
| Js.EnvValue | app/api/send/route.ts:8 | An environment variable reads as its string when set and as `undefined` when unset |
| Js.Truthy | app/api/send/route.ts:15 | `!x` is false exactly for `undefined`, `null`, `false`, `0` and the empty string |
| Js.StrictEq | app/api/send/route.ts:8 | `===`: primitives compare by value; an array or object parsed from a body equals nothing (see `SetPasswordGate`, `NumericCodeRefused`) |
| Js.Or | app/api/send/route.ts:106 | The or-operator gives its left operand when that is truthy and its right operand otherwise |
| Js.OrDefault | app/api/send/route.ts:148 | A caught error is reported by its message, or by the fallback text when the message is empty |
| Js.ToNumber | app/api/send/route.ts:24 | `Number` of blank text is 0 |
| Js.ReadInteger | app/api/send/route.ts:24 | Empty trimmed text reads as 0, and a nonempty run of digits as its decimal value |
| Js.NumberOfDecimal | app/api/send/route.ts:24 | `Number(String(n))` is `n` for every integer `n` |
| Js.ToStr | app/api/send/route.ts:70 | `String` of a string is that string, and `String` of a number reads back as that number |
| Js.TrimStart | app/api/send/route.ts:41 | The leading white space is cut: the result is a suffix, starts with no white space, and everything cut is white space |
| Js.TrimEnd | app/api/send/route.ts:41 | The trailing white space is cut: the result is a prefix, ends with no white space, and everything cut is white space |
| Js.Trim | app/api/send/route.ts:41 | The trimmed text is empty or neither starts nor ends with white space |
| Js.TrimIsSlice | app/api/send/route.ts:41 | Trimming only removes white space at the two ends: the result is a contiguous slice with nothing but white space around it |
| Js.TrimUnspaced | app/api/send/route.ts:41 | Text without white space at either end is left as it is |
| Js.TrimIdempotent | app/api/send/route.ts:45-46 | Trimming a trimmed piece changes nothing |
| Js.TrimUnique | app/api/send/route.ts:41 | A slice with only white space around it and none at its ends is the trimmed text |
| Js.TrimOfTrimStart | app/api/send/route.ts:41-45 | Trimming after trimming the start is trimming |
| Js.TrimOfTrimEnd | app/api/send/route.ts:41-45 | Trimming after trimming the end is trimming |
| Js.TrimAround | app/api/send/route.ts:41-44 | Around a non-space character, trimming removes leading space on its left and trailing space on its right only |
| Js.TrimStartConcat | app/api/send/route.ts:41 | Leading white space is removed only from the first part when the second starts with a non-space |
| Js.TrimEndConcat | app/api/send/route.ts:41 | Trailing white space is removed only from the second part when the first ends with a non-space |
| Js.Split | app/api/send/route.ts:44 | No piece holds the separator; text without one is a single piece; otherwise there are at least two pieces and the first is everything before the first separator |
| Js.JoinSplit | app/api/send/route.ts:44 | Joining the pieces with the separator gives the text back |
| Js.Lower | app/api/notion/recipients/route.ts:91 | Lower-casing keeps the length and maps every character on its own |
| Js.LowerIdempotent | app/api/notion/recipients/route.ts:91 | A lower-cased key lower-cases to itself |
| Js.Contains | app/api/notion/roles/route.ts:42 | `includes`: a prefix of the text or of one of its suffixes; characterised by `ContainsIff` |
| Js.Join | app/api/notion/roles/route.ts:38 | `join`: the parts with the separator between neighbours; inverted by `Split` in `JoinSplit` |
| Js.ContainsIff | app/api/notion/roles/route.ts:42 | `includes` holds exactly when the text occurs at some position |
| Js.JoinContainsParts | app/api/notion/roles/route.ts:38 | Every property name can be found in the comma-joined list |
| Js.NatDecimalLength | app/api/auth/otp/route.ts:28 | A number with k digits is written with k characters |
| Js.Get | app/api/send/route.ts:62 | Reading a property gives `undefined` when it is absent and otherwise the value stored under it |
| Js.Set | app/api/notion/recipients/route.ts:91 | After a property write the key reads back as the value and other keys are unchanged; a new key is appended, an existing one keeps its place, and keys stay unique |
| Placeholders.ReplaceAll | app/api/send/route.ts:69-70 | `html.replace(regex, value)` with a global, case-insensitive pattern: leftmost non-overlapping matches replaced, the replacement not rescanned; judged against `Scan` by `ReplaceAllIsRender` |
| Placeholders.Fold | app/api/send/route.ts:68-71 | The entries loop: each entry in insertion order replaces its placeholder by `Fill(value)` in the previous result; see `FoldAppend`, `FoldUntouched` and `FoldAround` |
| Placeholders.Personalise | app/api/send/route.ts:66-76 | The per-recipient HTML: the fold, then the `Name` fallback exactly when `name` is falsy and `Name` truthy; see `UnknownPlaceholdersKept`, `SingleEntry`, `NothingToReplace` and `FallbackCatchesLateName` |
| Placeholders.Placeholder | app/api/send/route.ts:69 | The pattern for a key is the key between double braces |
| Placeholders.ScanCoversInput | app/api/send/route.ts:69-70 | The left-to-right scan for a pattern reassembles to the text; every match equals the pattern up to case, and no character kept as it is starts a match |
| Placeholders.ReplaceAllIsRender | app/api/send/route.ts:69-70 | The global case-insensitive replace is that scan with every match replaced |
| Placeholders.ReplaceAllAbsent | app/api/send/route.ts:69-70 | Text in which the pattern occurs in no spelling of case is left unchanged |
| Placeholders.ReplaceAllCaseBlind | app/api/send/route.ts:69 | Keys that differ only in case replace the same occurrences |
| Placeholders.Fill | app/api/send/route.ts:70 | A falsy value is substituted by the empty string and a string by itself |
| Placeholders.FoldUntouched | app/api/send/route.ts:68-71 | HTML mentioning none of the record's keys passes through the fold unchanged |
| Placeholders.FoldAppend | app/api/send/route.ts:68-71 | The fold is sequential: later entries act on the output of earlier ones |
| Placeholders.NothingToReplace | app/api/send/route.ts:66-76 | HTML mentioning none of the record's keys, nor `{{name}}` when the `Name` fallback applies, reaches the recipient unchanged |
| Placeholders.NoMatchInside | app/api/send/route.ts:69 | No occurrence of one brace-free key's placeholder starts inside the placeholder of a brace-free key that differs from it beyond case |
| Placeholders.NoMatchAcross | app/api/send/route.ts:69 | An occurrence of a brace-free key's placeholder that starts before another placeholder ends before it |
| Placeholders.PassOver | app/api/send/route.ts:69-70 | The replace passes over text in which no occurrence starts, leaving it as it is |
| Placeholders.ReplaceBefore | app/api/send/route.ts:69-70 | Replacing in `x + t`, when no occurrence starting in `x` reaches into `t`, is replacing in `x` and in `t` apart |
| Placeholders.ReplaceAround | app/api/send/route.ts:68-71 | One key's replacement acts on each side of another key's placeholder separately and leaves that placeholder as it is |
| Placeholders.FoldAround | app/api/send/route.ts:68-71 | The whole fold does the same, for a record none of whose keys names the placeholder |
| Placeholders.UnknownPlaceholdersKept | app/api/send/route.ts:66-76 | A placeholder whose key is not in the record (up to case) reaches the recipient verbatim, wherever it stands among known placeholders: the text on each side of it is personalised as if on its own |
| Placeholders.SingleEntry | app/api/send/route.ts:68-75 | A one-entry record replaces its key's placeholder, in any case, by `String(value)`, or by the empty string for a falsy value; only a truthy `Name` entry, which brings in the fallback, is excluded |
| Placeholders.FallbackCatchesLateName | app/api/send/route.ts:68-75 | The fold's `Name` entry already replaces `{{name}}` written in the template; the fallback fills in only a `{{name}}` that a later entry's value brought in, which the fold leaves |
| Normalise.ParseLine | app/api/send/route.ts:40-49 | An entry gives an address and a name, both trimmed and comma-free; without a comma the address is the trimmed entry and the name is empty (the comma cases are pinned by `LineParts` and `ExtraPiecesDropped`) |
| Normalise.LineParts | app/api/send/route.ts:40-49 | `a,b` with comma-free `a` and `b` gives the address `trim(a)` and the name `trim(b)` |
| Normalise.ParseAfterComma | app/api/send/route.ts:41-46 | After the first comma, the name is the trimmed first piece of the rest |
| Normalise.CommaPieces | app/api/send/route.ts:41-44 | Trimming then splitting at the first comma gives the address with its leading space removed, then the pieces of the rest with its trailing space removed |
| Normalise.FirstPiece | app/api/send/route.ts:44-46 | The first piece after a comma-free name and a comma is that name |
| Normalise.LineRoundTrip | app/api/send/route.ts:40-48 | `address, name` is read back as that address and name |
| Normalise.ExtraPiecesDropped | app/api/send/route.ts:44-46 | `a,b,c` with comma-free `a` and `b` gives the address `trim(a)` and the name `trim(b)`: everything after the second comma is discarded |
| Normalise.SplitFirst | app/api/send/route.ts:44 | Splitting at the first comma gives the text before it followed by the pieces of the text after it |
| Normalise.TrimError | app/api/send/route.ts:41 | The `TypeError` text `r.trim()` throws: reading `trim` of `undefined` or `null`, or `r.trim is not a function` for other non-strings |
| Normalise.ParseLines | app/api/send/route.ts:39-49 | A list of strings maps entry by entry, keeping length and order; a non-string entry makes `trim` throw, with the error of the first such entry |
| Normalise.NormaliseRecipients | app/api/send/route.ts:36-55 | Only the first element decides: a list of strings is parsed; an empty list or one of non-strings passes through; a bare string becomes one record with its trimmed text as the address; anything else gives no recipients |
| Mailer.PortNumber | app/api/send/route.ts:24 | `Number(process.env.SMTP_PORT)`: unset reads as not a number, otherwise the number its text reads as |
| Mailer.TransportFor | app/api/send/route.ts:22-30 | The port is `Number(SMTP_PORT)` unless that is 0 or not a number, then 587; TLS is implicit exactly on port 465; host and credentials come from the environment |
| Mailer.Sender | app/api/send/route.ts:106 | Mail is sent from SMTP_FROM when it is set and non-empty, otherwise from SMTP_USER |
| Mailer.DecimalPortUsed | app/api/send/route.ts:24-25 | A non-zero port written in decimal is used as given, with TLS exactly when it is 465 |
| Mailer.PortFallback | app/api/send/route.ts:24-25 | An unset, blank or non-numeric port gives 587 without implicit TLS |
| Dispatch.Reached | app/api/send/route.ts:61-62 | The loop gets through the prefix of the list before the first `null` or `undefined` |
| Dispatch.ReachedEnd | app/api/send/route.ts:61-62 | That prefix ends exactly at the first `null` or `undefined` |
| Dispatch.Addressed | app/api/send/route.ts:62-63 | The recipients mailed are those with a truthy address |
| Dispatch.HasEmail | app/api/send/route.ts:62-63 | The skip test: an entry is mailed only when it is an object whose `email` is truthy; what it selects is stated by `Dispatch.AddressedMembers` and `Dispatch.Walk` |
| Dispatch.AddressedAppend | app/api/send/route.ts:61-63 | Selecting recipients distributes over concatenation, so the list order is kept |
| Dispatch.AddressedMembers | app/api/send/route.ts:62-63 | A recipient is mailed exactly when it is in the list and has an address |
| Dispatch.MailFor | app/api/send/route.ts:80-110 | Every mail has the job's sender and unpersonalised subject and goes to the recipient's address |
| Dispatch.EventFor | app/api/send/route.ts:112-129 | A delivered mail is reported as sent; a rejected one as failed, with the transport's message |
| Dispatch.Visit | app/api/send/route.ts:62-130 | A reached entry with an address gets one mail and one event; one without is skipped and changes nothing |
| Dispatch.Deliver | app/api/send/route.ts:78-130 | One loop pass for an addressed recipient adds its mail and reports that mail's outcome |
| Dispatch.Walk | app/api/send/route.ts:61-131 | The loop stops at the end of the list or at the first `null` or `undefined`; up to there each addressed recipient gets one mail and one event, in order, and a failure does not stop later sends |
| Dispatch.Stream | app/api/send/route.ts:61-135 | One mail and one event per addressed recipient, in list order, each event reporting its own delivery; the completion marker comes last and only when no entry threw |
| SendRoute.Post | app/api/send/route.ts:4-153 | The password is checked first (401), then the SMTP settings (500); a render or normalisation error answers 500; otherwise the stream mails the normalised list with the configured transport, sender and subject |
| SendRoute.Authorised | app/api/send/route.ts:8 | The gate passes exactly when the password is strictly equal to ADMIN_PASSWORD read from the environment |
| SendRoute.UnsetPasswordGate | app/api/send/route.ts:8 | With ADMIN_PASSWORD unset, exactly the requests that leave out the password pass the gate |
| SendRoute.SetPasswordGate | app/api/send/route.ts:8 | With ADMIN_PASSWORD set, exactly that string passes the gate |
| SendRoute.SmtpConfigured | app/api/send/route.ts:15 | The SMTP gate: host, user and password must all be truthy; `SendRoute.SmtpGate` restates it over the environment map |
| SendRoute.SmtpGate | app/api/send/route.ts:15 | The gate passes exactly when SMTP_HOST, SMTP_USER and SMTP_PASS are each present and not empty |
| SendRoute.ServerError | app/api/send/route.ts:148 | The 500 text is never empty: a non-empty error message is passed through, an empty one becomes `Internal Server Error` |
| Notion.Concat | app/api/notion/recipients/route.ts:57-59 | `map(t => t.plain_text).join('')`: the fragments run together; a single fragment is itself |
| Notion.Lookup | app/api/notion/recipients/route.ts:23 | A property lookup finds nothing exactly when no property has that name, and otherwise a schema stored under it |
| Notion.RolePropertyName | app/api/notion/recipients/route.ts:23 | The role property is `role` if present, else `Role`, else `Roles`, else none |
| Notion.RoleProperty | app/api/notion/roles/route.ts:35 | The first of `role`, `Role`, `Roles` that is present is found, and none only when none is present |
| Notion.RoleRoutesAgree | app/api/notion/roles/route.ts:35 | The role route and the recipient route pick the same property |
| NotionRecipients.ExtractValue | app/api/notion/recipients/route.ts:54-83 | Each property type gives its value: titles and rich text concatenate their fragments, multi-selects join names with `, `, checkboxes, numbers, e-mail, phone, URL, select names, date starts and string or number formulas give that value; the result is `null` or `undefined` exactly for a blank property (`undefined` for a missing select or date, `null` otherwise) |
| NotionRecipients.Put | app/api/notion/recipients/route.ts:86-96 | One loop step: a nullish value leaves the record as it was; otherwise the value is read back under the lower-cased key, and under `name` too for a title; every other key keeps its value, and unique keys stay unique |
| NotionRecipients.BuildRecord | app/api/notion/recipients/route.ts:86-98 | The record's keys are unique and lower case |
| NotionRecipients.BuildFrom | app/api/notion/recipients/route.ts:86-98 | The property loop from a partial record: unique keys and lower-case keys are kept |
| NotionRecipients.BuildFromGet | app/api/notion/recipients/route.ts:86-98 | Each property overwrites what earlier ones stored under the same key |
| NotionRecipients.BuildRecordGet | app/api/notion/recipients/route.ts:86-98 | Under every key the record holds what the last contributing property gave: one with that lower-cased name, or a title for `name`; there is nothing under other keys |
| NotionRecipients.Alias | app/api/notion/recipients/route.ts:101-103 | A falsy `email` with a truthy `mail` takes the `mail` value; nothing else changes |
| NotionRecipients.RecordFor | app/api/notion/recipients/route.ts:47-105 | A partial page gives no record; a full page gives one exactly when it has an `email` or `mail`, and the record always has an address |
| NotionRecipients.Records | app/api/notion/recipients/route.ts:47-106 | Every record returned has a truthy address |
| NotionRecipients.RecordsAppend | app/api/notion/recipients/route.ts:47-106 | Records come out in page order: results split in two give the same records |
| NotionRecipients.RecordsMembers | app/api/notion/recipients/route.ts:47-106 | A record is returned exactly when some page yields it |
| NotionRecipients.RoleFilter | app/api/notion/recipients/route.ts:29-36 | One `contains` clause on the role property per requested role, in request order |
| NotionRecipients.Post | app/api/notion/recipients/route.ts:5-113 | Missing configuration answers 500; missing or empty roles give no recipients without a lookup; a failed retrieval answers 500 with its message, and missing properties with the `TypeError` reading `role`; no role property answers 404 with its fixed message; otherwise the database is queried with the role filter and its records are returned |
| NotionTemplates.FieldOf | app/api/notion/templates/route.ts:49-55 | A title is the name whatever its key; otherwise the lower-cased key `subject`, `body` or `content`, or `type` decides |
| NotionTemplates.ReadAs | app/api/notion/templates/route.ts:28-41 | Each getter reads a property of its expected type and gives the empty string for any other type |
| NotionTemplates.Classify | app/api/notion/templates/route.ts:49-55 | The property loop: each property, in order, overwrites the field `FieldOf` sorts it into; characterised against `LastOf` by `ClassifyField` |
| NotionTemplates.ClassifyField | app/api/notion/templates/route.ts:49-55 | Each field holds what the last property sorted into it gave |
| NotionTemplates.TemplateFor | app/api/notion/templates/route.ts:24-64 | A full page gives a template with the page's id and source `notion`; a partial page gives none |
| NotionTemplates.Listed | app/api/notion/templates/route.ts:24-65 | Every listed template has a non-empty file name and source `notion` |
| NotionTemplates.ListedMembers | app/api/notion/templates/route.ts:24-65 | A template is listed exactly when some page yields it with a non-empty name |
| NotionTemplates.List | app/api/notion/templates/route.ts:11-72 | Unconfigured, no templates; a failed query answers 500; otherwise the listed templates |
| NotionTemplates.PageFor | app/api/notion/templates/route.ts:114 | The created page keeps the draft's fields, with the type defaulting to `General` when falsy |
| NotionTemplates.Post | app/api/notion/templates/route.ts:74-125 | Unconfigured answers 500; a body that cannot be read answers 500 with the reading error's message; saving succeeds exactly when the page is created; a creation error answers 500 with its message |
| NotionTemplates.SaveThenList | app/api/notion/templates/route.ts:82-118 | A saved template reads back as written, with the default type, and is listed exactly when it has a name |
| NotionRoles.Hint | app/api/notion/roles/route.ts:42-44 | The hint is appended exactly when the property list contains both `Type` and `Subject` |
| NotionRoles.NotFound | app/api/notion/roles/route.ts:38-47 | The 404 text begins with the fixed sentence saying that the property `role` was not found |
| NotionRoles.NotFoundListsProperties | app/api/notion/roles/route.ts:39-47 | Every property name of the database appears in the 404 text |
| NotionRoles.TemplateDatabaseHinted | app/api/notion/roles/route.ts:38-44 | A database with properties `Type` and `Subject` gets the hint |
| NotionRoles.Get | app/api/notion/roles/route.ts:5-64 | Missing configuration and missing properties answer 500; a failed retrieval answers 500 with its message; no role property answers 404 with the property list; a role property that is neither select nor multi-select answers 400 with the type message; otherwise its options |
| Otp.Find | app/api/auth/otp/route.ts:100 | A stored entry is found by a primitive key and never by an array or object |
| Otp.Remember | app/api/auth/otp/route.ts:31-34 | Storing replaces the address's entry and no other |
| Otp.Forget | app/api/auth/otp/route.ts:110 | Deleting removes the address's entry and no other |
| Otp.Code | app/api/auth/otp/route.ts:28 | The code is six decimal digits and its value is 100000 plus the draw |
| Otp.Mask | app/api/auth/otp/route.ts:84 | The masked address is the address unchanged, or two characters up to some position kept, then `***`, then everything from an `@` on |
| Otp.MaskAddress | app/api/auth/otp/route.ts:84 | A one-line address with two characters before its last `@` shows those two, then `***`, then everything from that `@` |
| Otp.MaskUnmatched | app/api/auth/otp/route.ts:84 | A one-line address without an `@` after its first two characters is shown as it is |
| Otp.CodeMail | app/api/auth/otp/route.ts:74-79 | The code is mailed from the configured sender to the OTP address |
| Otp.Issue | app/api/auth/otp/route.ts:7-93 | Disabled OTP and a missing OTP address leave the store unchanged; otherwise the code is stored for five minutes, then mailed, and the masked address or the mail error is returned |
| Otp.Verify | app/api/auth/otp/route.ts:98-130 | Absent, then expired (deleted), then wrong code (kept), in that order; a code is valid exactly when stored, unexpired and equal, and is then deleted |
| Otp.VerifyRequest | app/api/auth/otp/route.ts:96-138 | A body that cannot be read answers 500 and leaves the store alone |
| Otp.VerifyIsolated | app/api/auth/otp/route.ts:100-125 | Checking one address never changes another's entry |
| Otp.SingleUse | app/api/auth/otp/route.ts:100-125 | After a successful check the next check finds nothing |
| Otp.IssueThenVerify | app/api/auth/otp/route.ts:31-34 | An issued code is accepted up to and including its expiry instant, even when its mail failed |
| Otp.IssueThenExpire | app/api/auth/otp/route.ts:109-115 | After the expiry instant the code is refused as expired and deleted |
| Otp.NumericCodeRefused | app/api/auth/otp/route.ts:117 | A code sent as a JSON number never matches |
| Otp.RetryAfterMismatch | app/api/auth/otp/route.ts:117-122 | A wrong guess keeps the entry, so the right code still works before expiry |

## Left out

- Sending mail, Markdown rendering, Notion requests, the clock and the random number are parameters. Their own behaviour is not modelled.
- The server-sent-event framing (`ReadableStream`, byte encoding, headers) is left out. Events are a sequence of values.
- What the client sees after the stream errors is left out. It is modelled only as the missing completion marker.
- The page markup around the mail and OTP bodies is reduced to a fixed head and tail (`Mailer.Envelope`), because it is constant text.
- Placeholder keys are treated as literal text, though the route builds a regular expression from them. Keys containing regular-expression metacharacters are not modelled.
- Placeholders.Personalise: keys that turn the braces into a quantifier are not modelled: digits, optionally followed by a comma and more digits (`2`, `2,`, `2,5`). For the key `2` the route's pattern `{{2}}` matches `{{}}` and not `{{2}}`, where the model replaces `{{2}}`. A key such as `2,1` makes `new RegExp` throw a `SyntaxError` inside the stream, which ends it without a completion marker; `Dispatch.Stream` has no such outcome.
- `$` patterns in replacement values are not modelled either. `String.replace` would interpret them.
- Otp.MaskAddress: characters are Unicode code points, while JavaScript strings count UTF-16 code units. An address whose first two characters include one outside the Basic Multilingual Plane is masked after a different prefix by the route.
- Js.Lower: only ASCII letters change case, and the case-insensitive match folds only ASCII letters. Unicode case mapping is not modelled.
- Js.ToNumber: only optionally signed decimal integers are read. Fractions, exponents, hexadecimal and `Infinity` read as `NaN`, and numbers are unbounded integers.
- Notion number properties and formula numbers are integers.
- JavaScript enumerates integer-like object keys before the others. Objects here keep plain insertion order.
- Otp.Remember: an array or object used as `email` is not stored. The route stores it under an identity no later request can reach, and that unreachable growth of the store is not modelled.
- Each OTP request is one atomic step. An overlap of two requests during the `await` of the mail is not modelled.
- The request body is modelled by its fields, or by the error reading it threw. A body of `null` throws at the destructuring and is that error. A number, string, boolean or array body has every field `undefined` and is modelled as such a set of fields.
- The roles route's `debug` field and all `console.error` logging are left out.
- app/api/templates/route.ts, app/page.tsx, components/RichTextEditor.tsx and check_prod_error.js are not part of this model. They are a file-system template reader, the user interface and a debugging script.
