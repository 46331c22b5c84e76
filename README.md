# Portfolio chat assistant: a Dafny model

This is a model of the logic in `app.js`, the front end of a personal
portfolio site. The site has a small chat widget. When a message is
submitted, the widget appends the user's bubble and a "thinking" bubble. It
then asks a remote completion API (only if the visitor has entered an API
key) and falls back on a local keyword responder. Finally it overwrites the
thinking bubble with the answer. The model also covers the grouping of
project cards by category.

The model has seven modules, one per component:

- `Wrappers`: `Option` (JavaScript's `null`) and `Result` (a promise that
  resolves or rejects).
- `Text`: the JavaScript string operations the code relies on.
  `String.prototype.trim` strips ECMAScript white space and line
  terminators. `toLowerCase` works on characters. A regular expression made
  of plain words is a substring test. `Array.prototype.join` is `Join`.
- `Catalog`: the project record and the catalog that `localAnswer` reads.
  The catalog is an array whose entries are project records or `null`. It
  comes from `data/projects.json`. If that fetch fails, it comes
  from the JSON embedded in the page under `projects-data`. If there is no
  such text, it is the empty list.
- `Grouping`: the `byCategory` reduce of `renderProjects`. It is a method
  with a loop that builds the dictionary's key order and its groups. Lemmas
  prove that the groups partition the list, keep its order, and come in
  first-appearance order.
- `LocalResponder`: `localAnswer`. The message is lower-cased and tested for
  projects keywords, then skills keywords, then contact keywords. The first
  match picks the reply, and no match gives a generic reply. The projects
  reply lists the first five catalog records.
- `RemoteProvider`: the decision logic of `openaiAnswer`. The request it
  would send is described by a value. What the network returns is an input.
- `Chat`: the answer-resolution rule (remote first, local if the remote
  result is falsy) and the class `ChatSession` with the widget's mutable
  state. That state is the open flag, the key, the transcript, the input
  field, the widget's `open` class and its `aria-hidden` attribute.
  `ChatSession` has the methods `toggleChat`, `addBubble`, the key listener,
  the submit handler and the load handler.

Network calls, JSON parsing and the DOM are inputs or are left out. The
catalog fetch is a `CatalogSource` value. The OpenAI exchange is an
`HttpOutcome` value. The transcript container is a `seq<Bubble>` field.

Three behaviours of the code are worth stating, because a reader of the
widget might expect otherwise:

- `localAnswer` is not total: it rejects in three cases. The fetched or
  embedded document is not an array (`slice` or `map` throws). The embedded
  text is not JSON (`JSON.parse` throws inside the `catch`). One of the first
  five entries of the array is `null` (reading `p.title` in the `map`
  callback throws). The model returns `Failure` in those cases. `Submit` then
  leaves the placeholder bubble as it is, as the code does when the awaited
  promise rejects.
- The code tests `!answer`, so an empty remote string also falls back on the
  local answer, not only `null`. `Falsy` models that test.
- The load handler opens the widget and posts an introduction without any
  click, and `Introduce` models it.

## Model

| member | source | states |
|---|---|---|
| `Text.TrimStartSuffix` | app.js:211 | trimming the front keeps exactly the suffix that begins at the first non-space character; everything dropped is white space |
| `Text.TrimEndPrefix` | app.js:211 | trimming the end keeps exactly the prefix that ends at the last non-space character; everything dropped is white space |
| `Text.TrimIsCore` | app.js:211 | `trim()` gives a contiguous slice of the input with only white space outside it, and the slice neither starts nor ends with white space |
| `Text.TrimEmptyIff` | app.js:211-212 | the trimmed message is empty exactly when the input is all white space (the rejected submissions) |
| `Text.TrimIdempotent` | app.js:137 | trimming a trimmed value changes nothing |
| `Text.Trim` | app.js:137 | `String.prototype.trim`; `TrimIsCore`, `TrimEmptyIff` and `TrimIdempotent` state what it keeps and drops |
| `Text.ToLower` | app.js:159 | lower-casing keeps the length and maps each character independently |
| `Text.ToLowerNoCapitals` | app.js:159 | a string without capitals is unchanged by lower-casing |
| `Text.ToLowerAppend` | app.js:159 | lower-casing a concatenation is the concatenation of the lower-cased parts |
| `Text.ToLowerIdempotent` | app.js:159 | lower-casing twice is lower-casing once |
| `Text.ContainsIff` | app.js:161 | a keyword alternation matches exactly when the word occurs at some position; there are no word boundaries |
| `Text.ContainsInfix` | app.js:161 | a word placed anywhere inside a string is found in it |
| `Text.Contains` | app.js:161 | testing a regular expression made of one literal word; `ContainsIff` states it is occurrence at some position |
| `Text.JoinSnoc` | app.js:171 | `join(sep)` puts the separator between consecutive parts only: one more part adds the separator and that part at the end |
| `Text.Join` | app.js:171 | `Array.prototype.join`; `JoinSnoc` states how the parts and separators are laid out |
| `Catalog.ResolveCatalog` | app.js:162-169 | the entries localAnswer formats; `ResolveCatalogCases` states its cases |
| `Catalog.CategoryOf` | app.js:74 | the group key is the category when it is a non-empty string, otherwise "Other"; it is never empty |
| `Catalog.ResolveCatalogCases` | app.js:162-169 | the catalog resolves exactly when the document used is an array; a failed fetch with no embedded text gives the empty list; a fetched array is used as is, and so is an embedded array when the fetch fails |
| `Grouping.GroupByCategory` | app.js:73-77 | the reduce gives keys in first-appearance order, without repeats, and under each key the projects of that category in list order |
| `Grouping.OrderSnoc` | app.js:75 | one reduce step appends the category to the key order only when it is new |
| `Grouping.KeysSnoc` | app.js:75 | one reduce step keeps the key set equal to the key order's elements |
| `Grouping.ContentsSnoc` | app.js:75 | one reduce step pushes the project onto its own category's group and leaves the other groups alone |
| `Grouping.GroupedSnoc` | app.js:74-76 | one call of the reduce callback keeps the dictionary the one built from the projects seen so far: key order, key set and group contents |
| `Grouping.EveryProjectGrouped` | app.js:73-77 | every project's category is a key, the project is in that key's group, and its position is selected by that key and by no other |
| `Grouping.NoProjectNoGroup` | app.js:75 | a category that no project has has an empty group |
| `Grouping.FirstAppearanceHas` | app.js:79 | the keys visited are exactly the categories that occur |
| `Grouping.FirstAppearanceDistinct` | app.js:79 | each category is visited once |
| `Grouping.KeysInFirstAppearanceOrder` | app.js:73-79 | groups come in the order in which their categories first occur in the project list |
| `Grouping.GroupIsStableSelection` | app.js:73-79 | a group lists exactly the projects at the positions with that category, each once and in increasing position: a partition that keeps relative order |
| `LocalResponder.IntentOf` | app.js:159-179 | the branch localAnswer takes; `ProjectsWin`, `SkillsSecond`, `ContactThird`, `GeneralWhenNoKeyword` and `CaseInsensitive` state how it is chosen |
| `LocalResponder.Top` | app.js:170 | `slice(0, 5)` keeps the first min(5, n) entries, as a prefix of the array |
| `LocalResponder.Highlights` | app.js:170 | `map(...)` over those entries succeeds exactly when none of them is null, and then gives one line per entry, line i being record i formatted `- title: description`; a null rejects with `NullEntry` |
| `LocalResponder.LaterEntriesIgnored` | app.js:170 | entries after the fifth are never read: appending any entries, null or not, to an array of five or more changes neither the lines nor whether the map rejects |
| `LocalResponder.ProjectsReply` | app.js:171 | the intro, a newline and the lines joined by newlines; `ProjectsReplyLines`, `EmptyCatalogReply` and `ProjectsAnswerCases` state the reply built from a catalog |
| `LocalResponder.ProjectsAnswer` | app.js:161-171 | the projects branch: whenever it resolves, it resolves to a non-empty string |
| `LocalResponder.ProjectsAnswerCases` | app.js:162-171 | the projects branch rejects with the catalog's own error when the catalog does not resolve, rejects with `NullEntry` exactly when one of the first five entries is null, and otherwise gives the intro, a newline and the highlight lines joined by newlines |
| `LocalResponder.LocalAnswer` | app.js:158-180 | whenever localAnswer resolves, it resolves to a non-empty string |
| `LocalResponder.FailsOnlyOnCatalog` | app.js:161-179 | localAnswer rejects only on the projects branch, when that branch rejects; every other path returns a string |
| `LocalResponder.OnlyProjectsReadCatalog` | app.js:173-179 | the skills, contact and generic replies do not depend on the catalog and always succeed |
| `LocalResponder.LocalAnswerByIntent` | app.js:161-179 | each intent gets its fixed reply; the projects intent gets the intro plus highlights of the resolved catalog |
| `LocalResponder.CaseInsensitive` | app.js:159 | a message and its lower-cased form get the same intent and the same reply |
| `LocalResponder.ProjectsWin` | app.js:161 | a projects keyword in any letter case, anywhere in the message, even inside a longer word, selects the projects reply whatever else the message contains |
| `LocalResponder.SkillsSecond` | app.js:173 | a skills keyword selects the skills reply when no projects keyword occurs |
| `LocalResponder.ContactThird` | app.js:176 | a contact keyword selects the contact reply when no projects or skills keyword occurs |
| `LocalResponder.GeneralWhenNoKeyword` | app.js:179 | the generic reply is given exactly when no keyword of any set occurs in the lower-cased message |
| `LocalResponder.Found` | app.js:159-161 | the lower-cased message contains the lower-cased form of any part of it |
| `LocalResponder.ProjectsReplyLines` | app.js:170-171 | when none of the first five entries is null the lines exist, exactly min(5, n) of them, line i being catalog record i as `- title: description`, and the reply is the intro, a newline and those lines joined by newlines |
| `LocalResponder.EmptyCatalogReply` | app.js:166-171 | with a failed fetch and no embedded text the projects reply is the intro and a newline, with no error |
| `LocalResponder.KeywordsAreLowerCase` | app.js:161 | the keywords are written in lower case, so lower-casing the message makes matching case-insensitive |
| `LocalResponder.ExampleQuestion` | app.js:161 | "my projects" gets the projects reply |
| `LocalResponder.ExampleInsideWord` | app.js:161 | "homework" gets the projects reply |
| `LocalResponder.ExampleUpperCase` | app.js:161 | "WORK" gets the projects reply |
| `LocalResponder.ExampleProjectsBeforeSkills` | app.js:161 | "tools work" has a skills and a projects keyword and gets the projects reply |
| `RemoteProvider.Nullable` | app.js:202-205 | the value openaiAnswer resolves to, the text or null; `NullExactlyOnFailure` states when it is null |
| `RemoteProvider.NullExactlyOnFailure` | app.js:182-207 | the value openaiAnswer resolves to is the content text exactly when the key is set, the status is ok, the body parses and `choices[0].message.content` is present, and null exactly when the key is empty, fetch rejects, the status is not ok, the body does not parse or the content is missing |
| `RemoteProvider.RemoteAnswer` | app.js:182-207 | openaiAnswer's outcome with the reason for a null; its properties are stated by `AnswerIff`, `NoKeyNoAnswer`, `BadStatusIsNull` and `NullExactlyOnFailure` |
| `RemoteProvider.RequestFor` | app.js:183-199 | the request sent, if any; `RequestCarriesKeyAndMessage` states that it exists exactly when the key is set and carries the bearer key, the message and the endpoint |
| `RemoteProvider.ContentOf` | app.js:202 | `data.choices?.[0]?.message?.content ?? null`; `AnswerIff` and `NullExactlyOnFailure` state when it is present |
| `RemoteProvider.RequestCarriesKeyAndMessage` | app.js:183-199 | a request is sent exactly when a key is set; it goes to the completions endpoint with the key as bearer token and the message as user prompt |
| `RemoteProvider.NoKeyNoAnswer` | app.js:183 | with no key the result is null whatever the network would do |
| `RemoteProvider.AnswerIff` | app.js:183-205 | a text is returned exactly when the key is set, the status is ok, the body parses and `choices[0].message.content` is present; the text is that content |
| `RemoteProvider.BadStatusIsNull` | app.js:200 | a non-ok status such as 401 gives null whatever the body |
| `Chat.ResolveAnswer` | app.js:218-219 | a resolved answer is never the empty string |
| `Chat.RemoteFirstThenLocal` | app.js:218-219 | a non-empty remote text is the answer; a null or empty remote result gives the local answer |
| `Chat.NoKeyOrRejectedIsLocal` | app.js:183-203 | with no key, a failed request or a non-ok status, the answer is the local one |
| `Chat.ResolvesUnlessCatalogFails` | app.js:218-219 | an answer always resolves unless the message is about projects and the local projects branch rejects |
| `Chat.Falsy` | app.js:219 | `!answer` for a string or null: `RemoteFirstThenLocal` states that null and "" both fall back on the local answer |
| `Chat.NextOpen` | app.js:141 | `forceOpen ?? !chatState.open`; `ToggleLaws` states its laws |
| `Chat.ToggleLaws` | app.js:141 | toggling with no argument flips the state and twice restores it; forcing a state sets it and is idempotent |
| `Chat.ChatSession.constructor` | app.js:129-133 | the session starts closed, with no key and an empty transcript |
| `Chat.ChatSession.Toggle` | app.js:139-144 | `open` becomes the argument, or its negation with no argument; the widget's class and `aria-hidden` then equal `open` and `!open` |
| `Chat.ChatSession.SetKey` | app.js:137 | the key is the trimmed field value |
| `Chat.ChatSession.SetInput` | app.js:148 | stands for the user typing into the `#chatInput` field: afterwards the field holds what was typed |
| `Chat.ChatSession.AddBubble` | app.js:150-156 | exactly one bubble is appended at the end |
| `Chat.ChatSession.Submit` | app.js:209-221 | whitespace-only input changes nothing and sends no request; otherwise the input is cleared, the request goes out only with a key, the local responder is asked only when the remote result is falsy, and exactly two bubbles are appended: the trimmed message and a bot bubble holding the resolved answer, or the placeholder if localAnswer rejects; earlier bubbles are unchanged |
| `Chat.ChatSession.Introduce` | app.js:224-230 | the load handler opens the chat, appends the greeting, then the local answer to "projects" when it resolves |
| `Chat.IntroIsProjectsReply` | app.js:228 | the load handler's introduction `localAnswer('projects')` is the projects branch: the intro and the catalog's first five records, or a rejection |

## Left out

- I/O: `fetch`, `res.json()` and `JSON.parse` are not modelled. Their outcomes are the inputs `CatalogSource` and `HttpOutcome`. The model does not include the OpenAI request body's JSON encoding, `console.warn`, `console.error` or `e.preventDefault()`.
- Overlapping submissions and the load handler: the code has no in-flight guard, so two submissions can interleave their awaits. The load handler also suspends at `await localAnswer('projects')`, and a submission started in that window puts its user and placeholder bubbles before the introduction. `Submit` and `Introduce` each run to completion, so the model does not capture these interleavings or the resulting bubble order.
- Scroll-to-bottom in `addBubble`, card HTML templating, click handlers, `window.open`, the tilt effect, the particle and GSAP animations, the nav toggle and the year stamp: these are DOM rendering with no decision logic.
- `loadProjects` and the rest of `renderProjects`: only the grouping reduce is modelled. The card rendering loop over `Object.entries` is DOM output.
- Grouping.GroupByCategory: models the dictionary's keys in insertion order. `Object.entries` lists integer-like keys (a category such as "2024") first, in ascending numeric order. The model matches the code only when no category is a canonical array index.
- Grouping.GroupByCategory: a category equal to an inherited `Object.prototype` member (such as "constructor" or "__proto__") makes `(acc[cat] ||= []).push(p)` throw. The model treats every category as a fresh key.
- Text.ToLower: maps only the ASCII capitals A-Z. JavaScript also lower-cases other scripts. For example, KELVIN SIGN becomes an ASCII "k", and U+0130 becomes two characters. The keywords are Arabic or lower-case ASCII, so the difference only matters for such characters in a message.
- Catalog.Project: keeps `title`, `description` and an optional string `category`. It treats `title` and `description` as present strings, so a missing field (rendered as "undefined" by the code) is not modelled. An array element that is neither null nor an object, such as a number, is not modelled either: the code reads `undefined` fields from it without throwing. A non-string category is not modelled. `tags`, `url` and `icon` feed only the card HTML.
- Grouping.GroupByCategory: takes project records only. A null element makes `p.category` throw inside `renderProjects`, and `loadProjects` catches that. `loadProjects` is not part of this model.
- RemoteProvider.ContentOf: treats `message.content` as an optional string. A non-string JSON value there is not modelled.
- The initial markup of `index.html` is not part of this model. The widget is assumed to start closed with `aria-hidden="true"` and an empty message list.
- `chatState.projects` is declared but never read, so it is not modelled.
