# Jam-in-a-box helpers in Dafny

This project models the core of three helper components of the Jam-in-a-box
lab environment and proves properties about them.

- **The markdown file handler** (`md-handler/src/file-handler.js`):
  - `resolveFile` answers a request path with a status, a payload and a
    content type. It refuses directory traversal. It serves a directory
    through its `index.html`. A missing `.html` page is rendered from its
    markdown sibling.
  - `parseTemplateVariables` is the character-by-character expander of
    `{{ name }}` and `{{ name | default }}` references, with backslash
    escapes.
  - The process-wide template configuration cell, with
    `updateTemplateConfig` and `getTemplateConfig`.
  - `generateSlug`, `getContentType`, and the allow-listed `includeHtml`.
- **The details library** (`details/lib.js`):
  - `normalizeKind` reduces a Kubernetes kind to a canonical spelling. It
    lower-cases the kind, drops the API group, and maps standard kinds, short
    names and plurals through the synonym table.
  - `searchDetail` finds the first configuration object of a kind in a
    namespace, by name or by labels.
  - The five extractors build the URL and credential records of the Platform
    Navigator, the start-here app, API Connect, the DataPower gateway and the
    OpenShift console.
- **The configuration generator** (`build/config-generator.js`):
  - `getResource` looks a resource up by exact kind and name.
  - The two `moreInfo` item builders, `monospace` and `text`.
  - The `hosts` list, derived from the Routes annotated as lab endpoints.

Imperative code is modelled as methods. Each method is proved equal
to a recursive or declarative specification function, and the properties are
proved about that function:
- the expander loop of `parseTemplateVariables`;
- the two synonym loops of `normalizeKind`;
- the route and annotation loops of the lab hosts;
- the sequence of awaited calls in `resolveFile` (no loop).

The template configuration is a class whose method replaces its field. The
rest is pure functions.

The environment is passed in as parameters:
- The file system is a value of three functions (`stat`, `access`,
  `readFile`). Each returns a value, `ENOENT`, or another error.
  `resolveFile` also returns the list of calls it made.
- Node's `path` module is the `PathOps` parameter. The POSIX instance
  `NodePath` is defined on a segment model of paths.
- The markdown renderer is a function parameter.
- The start-up date is a string parameter.

Escaping both brace pairs, `\{{ x \}}`, does not give back `{{ x }}`: the
final `}` is held back and never emitted, because a brace held back at the
end of the input is dropped. `TemplateLaws.EscapedReferenceText` proves that
the output is `{{ x }`.

## Model

| member | source | states |
|---|---|---|
| ContentType.ContentTypeFor | scripts/helpers/md-handler/src/file-handler.js:640-660 | a type other than `application/octet-stream` is returned exactly for the fifteen listed extensions, and the result is never empty |
| ContentType.ContentTypeTableKeys | scripts/helpers/md-handler/src/file-handler.js:641-657 | the table's keys are exactly the fifteen extensions |
| ContentType.ContentTypeSynonyms | scripts/helpers/md-handler/src/file-handler.js:642-649 | `.html` and `.htm` share the HTML type, and `.jpg` and `.jpeg` share `image/jpeg` |
| ContentType.ContentTypeFallback | scripts/helpers/md-handler/src/file-handler.js:659 | the empty extension and an upper-case `.HTML` fall back to `application/octet-stream`: the lookup is case-sensitive |
| Slug.RemoveSpecial | scripts/helpers/md-handler/src/file-handler.js:77 | only characters of `[\w\s-]` are kept, all taken from the input, and text made only of them is unchanged |
| Slug.SpacesToHyphen | scripts/helpers/md-handler/src/file-handler.js:78 | no whitespace is left, every character is `-` or from the input, and text without whitespace is unchanged |
| Slug.DropLeadingHyphens | scripts/helpers/md-handler/src/file-handler.js:80 | the result is a suffix of the input that does not start with `-`, and is the input itself when that does not start with `-` |
| Slug.DropTrailingHyphens | scripts/helpers/md-handler/src/file-handler.js:80 | the result is a prefix of the input that does not end with `-`, and is the input itself when that does not end with `-` |
| Slug.CollapseHyphens | scripts/helpers/md-handler/src/file-handler.js:79 | no `--` is left, every character comes from the input, and the first character is kept |
| Slug.CollapseHyphensKeeps | scripts/helpers/md-handler/src/file-handler.js:79 | text without `--` is unchanged |
| Slug.StripHyphens | scripts/helpers/md-handler/src/file-handler.js:80 | no `-` at either end, characters from the input, no `--` introduced, and input without an edge `-` is unchanged |
| Slug.GenerateSlug | scripts/helpers/md-handler/src/file-handler.js:73-81 | every slug is well formed: lower-case word characters and `-` only, no `-` at either end, no `--` |
| Slug.SlugCharsArePlain | scripts/helpers/md-handler/src/file-handler.js:75-78 | slug characters are not upper-case, not whitespace, and survive the special-character filter |
| Slug.SlugOfSlug | scripts/helpers/md-handler/src/file-handler.js:73-81 | a well-formed slug is its own slug |
| Slug.SlugIdempotent | scripts/helpers/md-handler/src/file-handler.js:73-81 | the slug of a slug is the same slug |
| TemplateConfig.DefaultVariables | scripts/helpers/md-handler/src/file-handler.js:84-92 | the defaults are exactly title, author, date, version and organization, with title `Document` and date the start-up date |
| TemplateConfig.Rebuilt | scripts/helpers/md-handler/src/file-handler.js:100-102 | an update with `variables` replaces the whole variable set instead of merging it; without `variables` the defaults come back; the other keys are those of the update |
| TemplateConfig.LastUpdateWins | scripts/helpers/md-handler/src/file-handler.js:94-102 | after any series of updates the configuration depends only on the last one |
| TemplateConfig.TemplateStore.constructor | scripts/helpers/md-handler/src/file-handler.js:94 | the cell starts as the default configuration |
| TemplateConfig.TemplateStore.UpdateTemplateConfig | scripts/helpers/md-handler/src/file-handler.js:100-102 | the cell becomes the defaults overlaid with the update |
| TemplateConfig.TemplateStore.GetTemplateConfig | scripts/helpers/md-handler/src/file-handler.js:108-110 | returns the current cell and changes nothing |
| TemplateParser.DeEscape | scripts/helpers/md-handler/src/file-handler.js:137-160 | a doubled brace is reported only for two unescaped equal braces and holds nothing back; a backslash is held exactly when it is not itself escaped; after a backslash any character is literal |
| TemplateParser.Substitute | scripts/helpers/md-handler/src/file-handler.js:164-177 | the inserted text is trimmed; a configured variable wins over the default; an unresolved reference inserts the `failed-substitution` marker |
| TemplateParser.OutsideStep | scripts/helpers/md-handler/src/file-handler.js:181-191 | one step of the outside phase: the emitted text plus what the rest of the input expands to equals what the input expanded to before the step |
| TemplateParser.NameStep | scripts/helpers/md-handler/src/file-handler.js:192-213 | the same for the name phase, including the look-ahead for the second `}` that consumes two characters |
| TemplateParser.DefaultStep | scripts/helpers/md-handler/src/file-handler.js:214-227 | the same for the default phase |
| TemplateParser.ParseTemplateVariables | scripts/helpers/md-handler/src/file-handler.js:118-232 | the loop's output equals the recursive expansion `Expand` of the whole input |
| TemplateLaws.EscapeRoundTrip | scripts/helpers/md-handler/src/file-handler.js:118-232 | any text written with a backslash before each `{`, `}` and `\` expands back to itself |
| TemplateLaws.EscapedOutside | scripts/helpers/md-handler/src/file-handler.js:137-160 | escaped text outside a reference expands to the text itself, followed by the expansion of what comes after |
| TemplateLaws.EscapedDefault | scripts/helpers/md-handler/src/file-handler.js:214-227 | escaped text inside a default segment is appended to the default unchanged |
| TemplateLaws.PlainTextUnchanged | scripts/helpers/md-handler/src/file-handler.js:118-232 | text without `{`, `}` or `\` is returned unchanged |
| TemplateLaws.ClosingBracesCopied | scripts/helpers/md-handler/src/file-handler.js:143-147 | an unescaped `}}` outside a reference is copied verbatim |
| TemplateLaws.BraceBeforeBackslashLost | scripts/helpers/md-handler/src/file-handler.js:139-153 | a single held brace followed by a backslash is lost, and only the escaped character is emitted |
| TemplateLaws.PendingAtEndDropped | scripts/helpers/md-handler/src/file-handler.js:179-231 | a `{`, `}` or `\` still held back at the end of the input is never emitted |
| TemplateLaws.ScanName | scripts/helpers/md-handler/src/file-handler.js:192-213 | in the name phase, text without a bar and without `}}` is only appended to the name |
| TemplateLaws.OpenReference | scripts/helpers/md-handler/src/file-handler.js:183-187 | `{{` outside a reference starts an empty name |
| TemplateLaws.ReferenceResolves | scripts/helpers/md-handler/src/file-handler.js:197-204 | `{{ name }}` inserts the substitution for the trimmed name with no default |
| TemplateLaws.CloseDefault | scripts/helpers/md-handler/src/file-handler.js:216-221 | `}}` in a default segment ends the reference and inserts its substitution |
| TemplateLaws.ReferenceWithDefault | scripts/helpers/md-handler/src/file-handler.js:194-227 | a reference with a default segment, the default written escaped, inserts the substitution for the trimmed name with that default |
| TemplateLaws.EmptyDefaultInsertsNothing | scripts/helpers/md-handler/src/file-handler.js:164-177 | an empty default for an unconfigured name inserts nothing, and no marker appears |
| TemplateLaws.UnterminatedName | scripts/helpers/md-handler/src/file-handler.js:192-213 | a name never closed up to the end of the input emits nothing |
| TemplateLaws.UnterminatedReferenceDropped | scripts/helpers/md-handler/src/file-handler.js:118-232 | a reference whose name is never closed contributes nothing, and only the text before it survives |
| TemplateLaws.UnterminatedDefaultDropped | scripts/helpers/md-handler/src/file-handler.js:118-232 | a reference left open in its default segment contributes nothing either: the default is never inserted, and only the text before it survives |
| TemplateLaws.LoneBraceEmitted | scripts/helpers/md-handler/src/file-handler.js:143-157 | a single brace followed by an ordinary character is emitted with that character |
| TemplateLaws.EscapedReferenceText | scripts/helpers/md-handler/src/file-handler.js:118-232 | `\{{ x \}}` expands to `{{ x }`: the last brace is dropped |
| PosixPath.NormalizedAbsoluteSegments | scripts/helpers/md-handler/src/file-handler.js:243 | a normalised absolute path keeps no empty segment, no `.` and no `..` |
| PosixPath.NormalizeOfNormal | scripts/helpers/md-handler/src/file-handler.js:243 | an absolute path made of proper names is already normal |
| PosixPath.LastSegmentOfJoin | scripts/helpers/md-handler/src/file-handler.js:295 | joining a proper name onto a directory makes it the last segment |
| PosixPath.ExtnameOfLastSegment | scripts/helpers/md-handler/src/file-handler.js:301 | the extension is the last dot of the last segment onwards |
| FileResolver.IncludeHtml | scripts/helpers/md-handler/src/file-handler.js:16-26 | a name outside `header`, `footer` and `head` is refused without touching the file system; an allowed name is read once from the includes directory, and a failed read is reported |
| FileResolver.ConvertMarkdownToHtml | scripts/helpers/md-handler/src/file-handler.js:360-368 | the three includes are read in the order head, header, footer; the page is built exactly when all three load, and holds them around the rendered body |
| FileResolver.ResolveFile | scripts/helpers/md-handler/src/file-handler.js:240-352 | the response and the file-system calls made equal the specification `Resolution` |
| FileResolver.ServeIndex | scripts/helpers/md-handler/src/file-handler.js:268-294 | the directory branch, which looks for `index.html` then `index.md` and serves `index.html`, equals `IndexStage` |
| FileResolver.ServeFile | scripts/helpers/md-handler/src/file-handler.js:297-343 | reading the resolved file, with its markdown fallback, equals `FileStage` |
| FileResolver.ServeMarkdown | scripts/helpers/md-handler/src/file-handler.js:310-331 | the markdown fallback equals `MarkdownStage` |
| ResolverLaws.ResponseWellFormed | scripts/helpers/md-handler/src/file-handler.js:240-352 | every status is 200, 403, 404 or 500, and a content type is sent exactly with 200 |
| ResolverLaws.TraversalRefused | scripts/helpers/md-handler/src/file-handler.js:243-251 | a 403 is sent exactly when the normalised path contains `..`, even inside a name, and then no file-system call is made; any other request starts with a `stat` of its target |
| ResolverLaws.FileServed | scripts/helpers/md-handler/src/file-handler.js:297-306 | a readable file is served with status 200 and the type of its lower-cased extension |
| ResolverLaws.HtmlFallback | scripts/helpers/md-handler/src/file-handler.js:307-331 | a missing `.html` file (any letter case) is rendered from its `.md` sibling with the variables expanded; a missing sibling gives 404, and any other failure 500 |
| ResolverLaws.IncludeFailureIsServerError | scripts/helpers/md-handler/src/file-handler.js:16-26 | an include that fails to load, even one that is only missing, makes the fallback page a 500 |
| ResolverLaws.NoFallbackForOtherExtensions | scripts/helpers/md-handler/src/file-handler.js:334-337 | any other missing file, `.htm` included, is a 404 with no further read |
| ResolverLaws.ReadFailureIsServerError | scripts/helpers/md-handler/src/file-handler.js:341-351 | a read failing for any reason other than absence gives 500 |
| ResolverLaws.PageIncludesRecognised | scripts/helpers/md-handler/src/file-handler.js:364-368 | the page only asks for recognised includes, so its failures are read failures |
| ResolverLaws.DirectoryIndex | scripts/helpers/md-handler/src/file-handler.js:269-295 | a directory is answered through `index.html`; one with only `index.md` reaches the markdown fallback; one with neither is a 404 after exactly the two index probes |
| ResolverLaws.IncludePathIsJoin | scripts/helpers/md-handler/src/file-handler.js:8-20 | the include path of each allowed name is what `path.join` gives |
| ResolverLaws.IndexPathsAgree | scripts/helpers/md-handler/src/file-handler.js:295-312 | under POSIX, `join(dir, 'index.html')` has extension `.html`, and its markdown sibling is `join(dir, 'index.md')` |
| DetailsLib.NormalizedKind | scripts/helpers/details/lib.js:24-68 | the result is null exactly for an absent or empty kind |
| DetailsLib.NormalizeKind | scripts/helpers/details/lib.js:24-68 | the method with its two synonym loops equals `NormalizedKind` |
| DetailsLib.ReplaceSynonym | scripts/helpers/details/lib.js:42-47 | the first loop yields the capitalised standard kind of the row listing the name, or the name; once replaced, no later row matches |
| DetailsLib.ReplaceShortened | scripts/helpers/details/lib.js:59-64 | the second loop yields the standard kind of the last row listing the name without `s`, or the current name |
| DetailsLib.OwnerSpec | scripts/helpers/details/lib.js:42-47 | the owner of a short name is found exactly when some row lists it, and it is the last such row |
| DetailsLib.KindSynonymsWellFormed | scripts/helpers/details/lib.js:4-22 | every name in the table is a lower-case word; no short name is also a standard kind; no short name belongs to two rows |
| DetailsLib.Capitalize | scripts/helpers/details/lib.js:37-38 | the first letter is upper-cased and the rest is kept |
| DetailsLib.FindSpec | scripts/helpers/details/lib.js:73-90 | `find` returns the first selected item, and nothing exactly when none is selected |
| DetailsLib.SearchDetailAt | scripts/helpers/details/lib.js:70-91 | the item found is the first one selected for the normalised kind |
| DetailsLib.SearchDetailNone | scripts/helpers/details/lib.js:70-91 | nothing is found exactly when the configuration is not an array or no item is selected |
| DetailsLib.HttpsUrl | scripts/helpers/details/platform-navigator.js:20 | the URL is present exactly when the route has a non-empty host, and is then `https://` followed by the host |
| DetailsLib.DataValue | scripts/helpers/details/platform-navigator.js:21-22 | a data value is present exactly when it is there and non-empty |
| DetailsLaws.BeforeDotSpec | scripts/helpers/details/lib.js:31-33 | `split('.')[0]` is a prefix of the input with no dot in it |
| DetailsLaws.KindCaseInsensitive | scripts/helpers/details/lib.js:28 | normalisation ignores ASCII letter case |
| DetailsLaws.KindIgnoresGroup | scripts/helpers/details/lib.js:31-33 | `a.group` normalises like `a` |
| DetailsLaws.CanonicalOfStandard | scripts/helpers/details/lib.js:36-47 | a standard kind becomes itself capitalised |
| DetailsLaws.CanonicalOfShortName | scripts/helpers/details/lib.js:42-47 | a short name becomes its row's standard kind, capitalised |
| DetailsLaws.StandardKind | scripts/helpers/details/lib.js:24-68 | a standard kind in any letter case normalises to itself capitalised |
| DetailsLaws.ShortNameKind | scripts/helpers/details/lib.js:24-68 | a short name in any letter case normalises to its capitalised standard kind |
| DetailsLaws.PluralOfStandard | scripts/helpers/details/lib.js:50-57 | a plural of a standard kind loses its `s` |
| DetailsLaws.PluralOfShortName | scripts/helpers/details/lib.js:50-64 | a plural of a short name normalises to its row's capitalised standard kind |
| DetailsLaws.ResolveShape | scripts/helpers/details/lib.js:42-47 | a synonym loop leaves the name alone or produces a capitalised standard kind |
| DetailsLaws.NormalizedKindShape | scripts/helpers/details/lib.js:24-68 | every result is the lower-cased input cut at its first dot, or a capitalised standard kind |
| DetailsLaws.NormalizeKindIdempotent | scripts/helpers/details/lib.js:24-68 | normalising a non-empty result again changes nothing |
| DetailsLaws.OutsideTable | scripts/helpers/details/lib.js:24-68 | a dot-free name outside the table, whose `s`-less form is outside it too, normalises to its lower-case spelling |
| DetailsLaws.RouteExample | scripts/helpers/details/lib.js:24-68 | `Route` normalises to `route` |
| DetailsLaws.RoutesExample | scripts/helpers/details/lib.js:50-64 | `Routes` stays `routes`, because `route` is not in the table |
| DetailsLaws.SecretExample | scripts/helpers/details/lib.js:24-68 | `Secret` normalises to `secret` |
| DetailsLaws.SvcExample | scripts/helpers/details/lib.js:42-47 | `svc` normalises to `Service` |
| DetailsLaws.ServiceExample | scripts/helpers/details/lib.js:28-39 | `SERVICE` normalises to `Service` |
| DetailsLaws.PodsExample | scripts/helpers/details/lib.js:50-57 | `pods` normalises to `Pod` |
| PlatformNavigator.PlatformNavigator | scripts/helpers/details/platform-navigator.js:5-25 | the record has the single key `platformNavigator`, with fields url, username and password |
| PlatformNavigator.PlatformNavigatorUrlFromFirstRoute | scripts/helpers/details/platform-navigator.js:6-22 | the URL comes from the first route `cp4i-navigator-pn` in `tools`, whatever the secrets are |
| PlatformNavigator.PlatformNavigatorCredentialsFromFirstSecret | scripts/helpers/details/platform-navigator.js:6-22 | the user name and password come from the first credentials secret in `ibm-common-services`, whatever the routes are |
| PlatformNavigator.PlatformNavigatorWhenMissing | scripts/helpers/details/platform-navigator.js:18-23 | with no matching route the URL is null, and with no matching secret both credentials are null |
| StartHereApp.StartHereApp | scripts/helpers/details/start-here-app.js:5-25 | the single key is `startHereApp`, with fields url, username and password |
| StartHereApp.StartHereAppUrlFromFirstRoute | scripts/helpers/details/start-here-app.js:5-25 | the URL comes from the first route `integration` in `jam-in-a-box`, whatever the secrets are |
| StartHereApp.StartHereAppCredentialsFromFirstSecret | scripts/helpers/details/start-here-app.js:5-25 | the user name and password come from the first secret `jb-start-here-app-credentials` in `jam-in-a-box`, whatever the routes are |
| StartHereApp.StartHereAppWhenMissing | scripts/helpers/details/start-here-app.js:18-23 | the fields are null when nothing matches |
| Apim.Apim | scripts/helpers/details/apim.js:5-25 | the single key is `platformNavigator`, with fields url, username and password |
| Apim.ApimUrlFromFirstRoute | scripts/helpers/details/apim.js:5-25 | the URL comes from the first route `apim-demo-mgmt-api-manager` in `tools`, whatever the secrets are |
| Apim.ApimCredentialsFromFirstSecret | scripts/helpers/details/apim.js:5-25 | the user name is the `email` field and the password the `password` field of the first secret `apim-demo-mgmt-admin-pass`, whatever the routes are |
| Apim.ApimWhenMissing | scripts/helpers/details/apim.js:18-23 | the fields are null when nothing matches |
| Gateway.Gateway | scripts/helpers/details/gateway.js:5-25 | the single key is `datapower`, and the user name is always `admin` |
| Gateway.GatewayUrlFromFirstRoute | scripts/helpers/details/gateway.js:6-22 | the URL comes from the first route in `tools` labelled `jb-purpose: datapower-console`, whatever the secrets are |
| Gateway.GatewayPasswordFromFirstSecret | scripts/helpers/details/gateway.js:6-22 | the password comes from the first secret `apim-demo-gw-admin` in `tools`, whatever the routes are |
| Gateway.GatewayWhenMissing | scripts/helpers/details/gateway.js:18-23 | the URL or the password is null when nothing matches |
| OpenShiftConsole.OpenShiftConsole | scripts/helpers/details/openshift-console.js:5-17 | the single key is `openShiftConsole`, with only a url field |
| OpenShiftConsole.OpenShiftConsoleFromFirstMatch | scripts/helpers/details/openshift-console.js:5-17 | the URL comes from the first route `console` in `openshift-console` |
| OpenShiftConsole.OpenShiftConsoleWhenMissing | scripts/helpers/details/openshift-console.js:12-16 | the URL is null when nothing matches |
| ConfigGenerator.FindEntry | scripts/helpers/build/config-generator.js:27-29 | the only error the search throws is the type error of an entry without metadata |
| ConfigGenerator.FindEntrySpec | scripts/helpers/build/config-generator.js:27-29 | `find` stops at the first entry that has the kind and name, or that throws; nothing is found exactly when no entry does either |
| ConfigGenerator.GetResource | scripts/helpers/build/config-generator.js:26-46 | a data item is returned only for a non-empty key, and its value is not empty; "Data not found" names the kind, name and key that were asked for |
| ConfigGenerator.ResourceNotFoundExactly | scripts/helpers/build/config-generator.js:26-35 | "Resource not found" is thrown exactly when no entry has that kind and name (compared exactly) and no entry of that kind lacks metadata |
| ConfigGenerator.GetResourceFirstMatch | scripts/helpers/build/config-generator.js:26-46 | the first matching entry is returned whole when no key is asked for or it has no `data`; otherwise its non-empty value for the key is returned, or "Data not found" |
| ConfigGenerator.Monospace | scripts/helpers/build/config-generator.js:48-56 | the item holds name, value, monospace and clipboard, and `isPassword` exactly when asked for |
| ConfigGenerator.Text | scripts/helpers/build/config-generator.js:57-63 | the item holds the value, and `italic` exactly when asked for |
| ConfigGenerator.EndpointKey | scripts/helpers/build/config-generator.js:186-191 | a key is copied exactly when the annotation made of the endpoint prefix and the key is present |
| ConfigGenerator.LabRoutesSpec | scripts/helpers/build/config-generator.js:171-175 | the filter succeeds exactly when no Route lacks metadata, and then keeps exactly the Routes annotated `lab`, all of them |
| ConfigGenerator.LabRoutesAppend | scripts/helpers/build/config-generator.js:171-175 | filtering a concatenation is the concatenation of the filtered parts, so the kept routes keep input order and every occurrence |
| ConfigGenerator.LabRoutesOne | scripts/helpers/build/config-generator.js:171-175 | one entry throws when it is a Route without metadata, is kept once when it is a lab route, and is dropped otherwise |
| ConfigGenerator.WithEndpointsStep | scripts/helpers/build/config-generator.js:186-191 | visiting one annotation sets one key when it has the endpoint prefix, and changes nothing otherwise |
| ConfigGenerator.CollectSticky | scripts/helpers/build/config-generator.js:178-214 | once a route's entry throws, the later routes change nothing |
| ConfigGenerator.RouteInfo | scripts/helpers/build/config-generator.js:179-212 | the loop body over one route, with its annotation loop, equals the specification `HostEntry` |
| ConfigGenerator.GenerateHosts | scripts/helpers/build/config-generator.js:171-215 | the filter and the route loop equal the specification `Hosts` |
| ConfigLaws.EndpointsCopied | scripts/helpers/build/config-generator.js:179-191 | after the annotation loop, the entry holds `baseUrl` and one key per endpoint annotation; the annotation's value wins over `baseUrl` |
| ConfigLaws.HostEntryFails | scripts/helpers/build/config-generator.js:179-202 | an entry throws exactly when the route has no `spec`, or when the service must be derived and `spec.to` is missing; the error is a type error |
| ConfigLaws.HostEntryKeys | scripts/helpers/build/config-generator.js:179-212 | an entry holds exactly `baseUrl`, `service`, `serviceProtocol` and the endpoint keys |
| ConfigLaws.HostEntryCopies | scripts/helpers/build/config-generator.js:186-191 | endpoint annotations are copied as they are; `service` and `serviceProtocol` are copied only when non-empty |
| ConfigLaws.HostEntryBaseUrl | scripts/helpers/build/config-generator.js:179-181 | without an override, `baseUrl` is `https://` followed by the host and `/` |
| ConfigLaws.HostEntryService | scripts/helpers/build/config-generator.js:192-203 | without a non-empty annotation, the service is the named Service followed by `/` and the namespace's `svc.cluster.local` domain; it is null for a Service without a name; for another target the suffix follows an empty string, or `undefined` when there is no annotation |
| ConfigLaws.HostEntryProtocol | scripts/helpers/build/config-generator.js:204-211 | without a non-empty annotation, the protocol is `https` exactly for edge or passthrough TLS termination, and `http` otherwise |
| ConfigLaws.CollectSpec | scripts/helpers/build/config-generator.js:178-214 | the loop succeeds exactly when every route's entry does, and then holds one host per entry, in order |
| ConfigLaws.HostsEmpty | scripts/helpers/build/config-generator.js:171-177 | the hosts list stays empty exactly when no entry is a lab route and no Route lacks metadata |
| ConfigLaws.HostsSpec | scripts/helpers/build/config-generator.js:171-215 | generation throws exactly when a Route lacks metadata or a lab route's entry throws; otherwise it holds each lab route's entry in input order |

## Left out

- Node's `path` module is a parameter (`PathOps`). Only its POSIX instance is defined, on a segment model of paths. Windows paths are not modelled.
- The file system is a value of three functions. Errors other than `ENOENT` are one outcome, and error messages are not modelled.
- markdown-it rendering, the heading-anchor renderer rule, and the table-of-contents plugin are a function parameter or not modelled. The constant styles and scripts of the page shell are not modelled either.
- The include files are awaited in sequence in the model. The source starts the three reads together; the order of the probes in the model is the order in which they are awaited. A read that fails while an earlier one is still awaited (`header` failing while `head` is pending) is, in the source, a promise rejected before anything awaits it. Node may report it as an unhandled rejection and end the process instead of answering 500; the model answers 500 for every failed include.
- Console output (`console.warn`, `console.log`, `console.error`) is not modelled.
- The start-up date comes from the clock and locale; it is a parameter.
- Lower- and upper-casing are modelled for ASCII letters only. Other Unicode case mappings are not modelled.
- `readConfigFiles`, JSON parsing and the writing of the generated file are I/O and are not modelled. The configuration is a sequence of already-parsed resources.
- The links part of `generateConfigObj` is not modelled. It only calls `getResource`, `monospace` and `text`, which are modelled.
- `get-server-detail.js` is not part of this model.
- A configuration item that is itself `null`, data and annotation values that are not strings, and JSON key order are not modelled.
- TemplateConfig.TemplateStore.GetTemplateConfig: the configuration is an immutable value, so the object `getTemplateConfig` returns is modelled as a copy. In the source the spreads are shallow: the returned object is the live configuration, and its `variables` is the defaults' object (before any update that sets `variables`) or the caller's own object (after one). Mutation through that object, which changes later expansions and, in the first case, the defaults that later updates bring back, is not modelled.
- TemplateConfig.LastUpdateWins: the `variables` of an update are modelled as a copy, not as the caller's object. Like `Rebuilt`, it holds only when nobody mutates the returned configuration, the defaults' `variables` or the object passed to an update.
- Template variables that are not strings are not modelled: the variables are a map from strings to strings. `updateTemplateConfig` accepts any object, so a number or boolean value throws at `value.trim()`, and `variables` set to `null` or `undefined` throws at the lookup; `resolveFile` turns either TypeError into a 500.
- An object with the key `__proto__` and inherited properties of plain objects are not modelled.
- DetailsLaws.PluralOfStandard: stated under the hypothesis that the plural itself is neither a standard kind nor a short name. The table has no such plural, but the lemma takes this as a requirement instead of proving it for each row.
- DetailsLaws.PluralOfShortName: stated under the same hypothesis as `PluralOfStandard`.
- DetailsLaws.NormalizeKindIdempotent: stated for non-empty results only. An input such as `.x` normalises to the empty string, and the empty string normalises to null.
