# DevExtreme CLI page orchestrators, modelled in Dafny

This project models the pure logic of three files of the DevExtreme CLI:

- the React application orchestrator (`application.react.js`);
- the Vue application orchestrator (`application.vue.js`);
- the theme runtime of the generated Next.js application (`theme.tsx`).

The two orchestrators implement `create` and `add view`. The model covers
`add view` in full and `create` up to its call of `addTemplate`, which is
recorded as a single step (what `addTemplate` and `install` do is listed
under "Left out"). Within that scope the model computes:

- the route and navigation records spliced into arrays;
- component names;
- the file-extension policies;
- the dependency lists;
- the `create-vite` / `create-vue` arguments;
- the `index.html` rewrite.

The calls themselves are recorded as a plan, a sequence of `Action`s, and
are not performed. The string-casing helpers `classify`, `dasherize` and
`humanize` are uninterpreted functions passed in as a `Casing` record.
Every property is stated relative to them.

The `index.html` rewrite is modelled down to JavaScript's semantics:

- both `<title>` regular expressions, with leftmost-match search;
- `String.prototype.replace` on the first occurrence only;
- the `$`-patterns of the replacement string (GetSubstitution, section 22.1.3.19.1 of ECMA-262). The replacement embeds the humanized app name, so these matter.

The theme runtime's module-level `currentTheme` is an explicit
`ThemeState`. Whether `window` is defined is a parameter.

Files:

- `jstext.dfy`, module `JsText`: JS truthiness, `indexOf`, `replace` and GetSubstitution.
- `title.dfy`, module `TitlePattern`: the two `<title>` patterns, their matcher and capture group.
- `dependencies.dfy`, module `Dependencies`: dependency entries and the by-name version override.
- `fragments.dfy`, module `Fragments`: the object-literal layout.
- `fragments.dfy`, module `Collaborators`: casing helpers, paths, extension policies, the `Action` plan.
- `pages.dfy`, module `Pages`: what both orchestrators share, namely the icon default, the navigation record and `modifyIndexHtml`.
- `react.dfy`, module `ReactApplication`.
- `vue.dfy`, module `VueApplication`.
- `theme.dfy`, module `ThemeRuntime`.

## Model

| member | source | states |
|---|---|---|
| JsText.IndexOf | packages/devextreme-cli/src/applications/application.vue.js:24-25 | `indexOf` is -1 exactly when the value is absent; otherwise it is the first index holding it |
| JsText.Lookup | packages/devextreme-cli/src/templates/nextjs/application/src/theme.tsx:9 | indexing an array is `undefined` outside its bounds and the element inside them |
| JsText.Find | packages/devextreme-cli/src/applications/application.react.js:105 | `indexOf` on strings finds an occurrence at or after the start, none earlier; when it finds none, there is none |
| JsText.FindIsLeftmost | packages/devextreme-cli/src/applications/application.react.js:105 | an occurrence with no occurrence before it is exactly what `indexOf` from the start returns |
| JsText.SubstituteLiteral | packages/devextreme-cli/src/applications/application.react.js:104 | a replacement string without `$` is inserted literally by GetSubstitution |
| JsText.ReplaceFirstLiteral | packages/devextreme-cli/src/applications/application.react.js:105 | `replace` with a string pattern splices the replacement in at the leftmost occurrence only; with no occurrence the text is unchanged |
| JsText.ReplaceFirst | packages/devextreme-cli/src/applications/application.react.js:105 | with no occurrence of the pattern the text is unchanged; otherwise the result is exactly the text before the leftmost occurrence, then the replacement as GetSubstitution expands it for that match (no capture groups), then the text after the occurrence |
| JsText.ReplaceFirstAt | packages/devextreme-cli/src/applications/application.react.js:105 | with a `$`-free replacement and the leftmost occurrence at `b`, `replace` splices the replacement in at `b` |
| JsText.SubstitutePrefix | packages/devextreme-cli/src/applications/application.react.js:104 | a `$`-free prefix of a replacement is copied unchanged and the rest is expanded on its own |
| JsText.SubstituteEscapes | packages/devextreme-cli/src/applications/application.react.js:104 | in a replacement, `$$` inserts one `$`, `$&` the matched text, `$` plus a backquote the text before the match, and `$'` the text after it |
| JsText.SubstituteGroup | packages/devextreme-cli/src/applications/application.vue.js:79 | `$1` inserts the first capture when the pattern has a group, and stays the literal `$1` when it has none |
| JsText.SubstituteTwoDigitFallback | packages/devextreme-cli/src/applications/application.vue.js:79 | with a single capture group, `$10` is read as `$1` followed by a literal `0` |
| TitlePattern.MatchEnd | packages/devextreme-cli/src/applications/application.react.js:104 | a match found at a position is a title element of the pattern's language |
| TitlePattern.MatchEndComplete | packages/devextreme-cli/src/applications/application.react.js:104 | every title element at a position is the match found there, so the match at a start is unique |
| TitlePattern.FindTitle | packages/devextreme-cli/src/applications/application.react.js:104 | the regex search returns a match with no match starting before it, or reports that no position matches |
| TitlePattern.FindTitleLeftmost | packages/devextreme-cli/src/applications/application.react.js:104 | the search fails iff no substring is a title element; otherwise it returns the leftmost title element |
| TitlePattern.LastGroup | packages/devextreme-cli/src/applications/application.vue.js:79 | the last iteration of `(\w+\s*)` is a maximal word run followed only by white space up to `</title>` |
| TitlePattern.LastWordCapture | packages/devextreme-cli/src/applications/application.vue.js:79 | the last iteration of the group is a suffix of the title text made of one whole word, which starts the text or follows a non-word character, and only white space after it |
| TitlePattern.Captures | packages/devextreme-cli/src/applications/application.vue.js:79 | the React pattern has no capture group; the Vue pattern's `$1` is a suffix of the title text made of one whole word, starting the text or following a non-word character, and its trailing white space |
| TitlePattern.ReplaceTitleLiteral | packages/devextreme-cli/src/applications/application.react.js:104 | with a `$`-free replacement, the leftmost title element is replaced and the rest is kept; without a title element the text is unchanged |
| TitlePattern.ReplaceTitle | packages/devextreme-cli/src/applications/application.react.js:104 | without a title element the text is unchanged; otherwise the result is exactly the text before the leftmost title element, then the replacement as GetSubstitution expands it for that match and its capture groups, then the text after the element |
| Dependencies.Names | packages/devextreme-cli/src/applications/application.vue.js:24 | the mapped name list has one name per entry, in order |
| Dependencies.SetVersion | packages/devextreme-cli/src/applications/application.vue.js:24-27 | the first entry with the name gets the version and no other entry changes; with no such entry the assignment throws |
| Collaborators.ApplyExtensionPolicy | packages/devextreme-cli/src/applications/application.react.js:213-215 | the page-file callback only ever changes `.tsx`; the identity policy changes nothing |
| Collaborators.Plan | packages/devextreme-cli/src/applications/application.react.js:200-221 | a plan of setup steps, the page step and source edits keeps them in that order, and its source edits are exactly the given edits |
| Collaborators.PlanMembers | packages/devextreme-cli/src/applications/application.vue.js:163-176 | a step other than a source edit or the page step is in the plan iff it is one of the setup steps |
| Collaborators.PlanShape | packages/devextreme-cli/src/applications/application.vue.js:163-176 | counted from the end, a plan is the page step followed by exactly the edits; counted from the start, it opens with the first setup step |
| Collaborators.PlanWithOptionalStep | packages/devextreme-cli/src/applications/application.vue.js:163-176 | a plan with one optional setup step opens with that step exactly when it is present, contains it iff it is present, and ends with the page step and then exactly the edits |
| Pages.ResolveIcon | packages/devextreme-cli/src/applications/application.react.js:211 | the icon is `'folder'` unless options are given with a truthy icon, which then passes through unchanged |
| Pages.NavigationRecord | packages/devextreme-cli/src/applications/application.react.js:167 | the navigation record is the exact newline/indent layout with the humanized label, `'/' + dasherize` and the icon; it begins with a newline and no comma |
| Pages.FindsLeftmostTitle | packages/devextreme-cli/src/applications/application.react.js:104 | a title element with none before it is the one the regex search returns |
| Pages.TitleRewrite | packages/devextreme-cli/src/applications/application.react.js:104 | the leftmost title element becomes `<title>appName</title>` and nothing else changes, for an app name without `$` |
| Pages.TitleUnchanged | packages/devextreme-cli/src/applications/application.react.js:104 | without a title element the title step leaves the HTML unchanged, whatever the app name |
| Pages.TitleOfMatch | packages/devextreme-cli/src/applications/application.vue.js:79 | for the app name `$&`, the leftmost title element is not replaced but nested: the result holds `<title>`, the old title element, then `</title>`, with the rest kept |
| Pages.MatchInTitle | packages/devextreme-cli/src/applications/application.react.js:104 | the replacement `<title>$&</title>` expands to the matched text between a new `<title>` and `</title>` |
| Pages.BodyRewrite | packages/devextreme-cli/src/applications/application.react.js:105 | the first `<body>` gets `class="dx-viewport"` and nothing else changes |
| Pages.BodyUnchanged | packages/devextreme-cli/src/applications/application.react.js:105 | without `<body>` the body step leaves the text unchanged |
| Pages.BodyStepAfter | packages/devextreme-cli/src/applications/application.react.js:105 | once the title step has produced `t`, the whole rewrite gives the first `<body>` of `t` the `dx-viewport` class, or returns `t` when it has no `<body>` |
| Pages.ModifyIndexHtml | packages/devextreme-cli/src/applications/application.react.js:100-108 | without a title element only the `<body>` step changes the HTML; with neither a title element nor `<body>` the HTML comes back unchanged |
| ReactApplication.ProjectExtension | packages/devextreme-cli/src/applications/application.react.js:22-24 | the extension is `.tsx` iff `src/App.tsx` exists, otherwise `.jsx` |
| ReactApplication.ModulePathsShareExtension | packages/devextreme-cli/src/applications/application.react.js:205-210 | the pages index, routing module and navigation module all end in the one project extension |
| ReactApplication.CorrectPath | packages/devextreme-cli/src/applications/application.react.js:110-112 | only `.ts`/`.tsx` template paths go through `setFileExtension`; every other path is returned unchanged |
| ReactApplication.PageExtensionMapping | packages/devextreme-cli/src/applications/application.react.js:213-215 | `.tsx` maps to the project extension and every other extension is kept; the mapping is the identity in a TypeScript project and idempotent |
| ReactApplication.ComponentPageName | packages/devextreme-cli/src/applications/application.react.js:159-161 | the component name ends in `Page`, and what precedes the suffix is `classify(viewName)` |
| ReactApplication.NavigationFragments | packages/devextreme-cli/src/applications/application.react.js:163-169 | the route is exactly `path` then `element` in the newline/indent layout; the navigation record carries the same `'/' + dasherize` path; both begin with a newline |
| ReactApplication.BumpReactDependencies | packages/devextreme-cli/src/applications/application.react.js:55-69 | `react` and `react-dom` at the tag, in order; `@types/react` and `@types/react-dom` are appended as dev entries iff TypeScript, so the length is 2 or 4 |
| ReactApplication.ViteTemplate | packages/devextreme-cli/src/applications/application.react.js:85 | the template name is one of the four React `create-vite` templates |
| ReactApplication.ViteTemplateRoundTrip | packages/devextreme-cli/src/applications/application.react.js:85 | the template name determines the SWC and TypeScript choices, so distinct choices give distinct templates |
| ReactApplication.CreateViteArguments | packages/devextreme-cli/src/applications/application.react.js:83-85 | `create-vite` is pinned to the version tag when it is truthy and to the latest version otherwise; then the app name and `--template` |
| ReactApplication.CreatePlan | packages/devextreme-cli/src/applications/application.react.js:71-98 | `npx create-vite` runs, then the `index.html` rewrite with the humanized name, then the React bump iff a truthy tag is given, then the template with the classified layout |
| ReactApplication.CreatePinsOneVersion | packages/devextreme-cli/src/applications/application.react.js:81-95 | `create-vite` is pinned to the tag when it is truthy and to the latest version otherwise; a dependency bump happens only for a truthy tag, and every dependency it adds is at that tag |
| ReactApplication.IndexHtmlTitle | packages/devextreme-cli/src/applications/application.react.js:100-108 | a leftmost `<title>X</title>` whose X is non-empty and has no `<` becomes `<title>appName</title>`, with the rest kept |
| ReactApplication.IndexHtmlRewrite | packages/devextreme-cli/src/applications/application.react.js:100-108 | the whole `modifyIndexHtml` for a title the React pattern matches and an app name without `$`: the title is rewritten, then the first `<body>` of the result gets `class="dx-viewport"`, or the result is kept when it has no `<body>` |
| ReactApplication.PageDirectorySetup | packages/devextreme-cli/src/applications/application.react.js:171-185 | when `src/pages` is missing: `src/pages`, then the empty pages index, then the page directory; when only the page directory is missing: that directory; otherwise nothing |
| ReactApplication.ViewEdits | packages/devextreme-cli/src/applications/application.react.js:217-220 | `add view` makes four source edits |
| ReactApplication.AddViewPlan | packages/devextreme-cli/src/applications/application.react.js:200-221 | directory setup comes first, then the page template with the `.tsx` policy, then exactly the four source edits |
| ReactApplication.AddViewEditsExactly | packages/devextreme-cli/src/applications/application.react.js:200-221 | the edits are the export from the pages index, the `./pages` import, the route record and the navigation record, with the icon default |
| VueApplication.ComponentPageName | packages/devextreme-cli/src/applications/application.vue.js:128-130 | the Vue component name is `classify(viewName)` with no suffix |
| VueApplication.ComponentNamesAgree | packages/devextreme-cli/src/applications/application.vue.js:128-130 | the React name of a page is the Vue name followed by `Page` |
| VueApplication.VueRoute | packages/devextreme-cli/src/applications/application.vue.js:132-143 | the route record is exactly `path`, `name`, `meta` (`requiresAuth: true`, `layout: defaultLayout`) and `component` in the newline/indent layout |
| VueApplication.NavigationFragments | packages/devextreme-cli/src/applications/application.vue.js:145-151 | the route path and the navigation path are both `'/' + dasherize(viewName)`; the route name is the dasherized name and the label the humanized one; both begin with a newline |
| VueApplication.CorrectPath | packages/devextreme-cli/src/applications/application.vue.js:84-86 | every template path is kept as it is |
| VueApplication.CorrectPathsAgree | packages/devextreme-cli/src/applications/application.vue.js:84-86 | the Vue and React path callbacks agree on every extension other than `.ts` and `.tsx`; on those React goes through `setFileExtension` while Vue keeps the path |
| VueApplication.TemplateDependencies | packages/devextreme-cli/src/applications/application.vue.js:17-27 | after the override the list still has its three entries in order; `vue-router` is at `^4.0.1`; the other two entries are unchanged; nothing throws |
| VueApplication.CreateVueVersion | packages/devextreme-cli/src/applications/application.vue.js:40 | `create-vue` is pinned to the tag when it is truthy, otherwise to the latest version |
| VueApplication.CreateVueArguments | packages/devextreme-cli/src/applications/application.vue.js:39-42 | the `npm` arguments are `create`, `vue@<version>`, the name, the public registry, `--`, then `--eslint --default --bare` |
| VueApplication.BumpVueDependencies | packages/devextreme-cli/src/applications/application.vue.js:44-51 | `vue` and `vue-router` at the tag, in that order, neither a dev entry |
| VueApplication.CreatePlan | packages/devextreme-cli/src/applications/application.vue.js:53-73 | `npm create vue` runs; `vue` and `vue-router` are pinned iff a truthy tag is given; then the `index.html` rewrite, then the template with the layout unchanged |
| VueApplication.CreatePinsOneVersion | packages/devextreme-cli/src/applications/application.vue.js:39-69 | `create-vue` is pinned to the tag when it is truthy and to the latest version otherwise; a dependency bump happens only for a truthy tag, and every dependency it adds is at that tag |
| VueApplication.IndexHtmlTitle | packages/devextreme-cli/src/applications/application.vue.js:75-82 | a leftmost `<title>X</title>` is replaced when X is non-empty, starts with a word character and holds only word characters and white space |
| VueApplication.IndexHtmlRewrite | packages/devextreme-cli/src/applications/application.vue.js:75-82 | the whole `modifyIndexHtml` for a title the Vue pattern matches and an app name without `$`: the title is rewritten, then the first `<body>` of the result gets `class="dx-viewport"`, or the result is kept when it has no `<body>` |
| VueApplication.VueTitlePatternIsStricter | packages/devextreme-cli/src/applications/application.vue.js:79 | every title the Vue pattern matches the React pattern matches too, but `<title>my-app</title>` only React's does |
| VueApplication.TitleCaptureIsLastWord | packages/devextreme-cli/src/applications/application.vue.js:79 | `$1` in the Vue replacement is the title's whole last word, never a proper suffix of it, with its trailing white space |
| VueApplication.ViewEdits | packages/devextreme-cli/src/applications/application.vue.js:173-175 | `add view` makes three source edits |
| VueApplication.AddViewPlan | packages/devextreme-cli/src/applications/application.vue.js:163-176 | four steps, or five when `src/views` is missing: the `src/views` directory first iff it is missing, then the page template keeping every extension, then exactly the three edits of `ViewEdits` |
| VueApplication.AddViewEditsExactly | packages/devextreme-cli/src/applications/application.vue.js:163-176 | the router gets a default import of `./views/<pageName>.vue` bound to the component name, plus the route record; the navigation module gets the navigation record with the icon default |
| ThemeRuntime.NextTheme | packages/devextreme-cli/src/templates/nextjs/application/src/theme.tsx:8-10 | the next theme is always in the themes list, and it is `dark` iff the given theme is `light` |
| ThemeRuntime.NextThemeCycle | packages/devextreme-cli/src/templates/nextjs/application/src/theme.tsx:4-10 | `light` is followed by `dark` and `dark` by `light` |
| ThemeRuntime.NextThemeOfUnknown | packages/devextreme-cli/src/templates/nextjs/application/src/theme.tsx:8-10 | any theme not in the list, `''` included, is followed by `light` |
| ThemeRuntime.NextThemeInvolution | packages/devextreme-cli/src/templates/nextjs/application/src/theme.tsx:8-10 | applied twice to a listed theme, `getNextTheme` gives that theme back |
| ThemeRuntime.InitialState | packages/devextreme-cli/src/templates/nextjs/application/src/theme.tsx:6 | the initial `currentTheme` is `light` |
| ThemeRuntime.BodySwap | packages/devextreme-cli/src/templates/nextjs/application/src/theme.tsx:21-24 | the body's class `dx-swatch-<previous>` is replaced by `dx-swatch-<new>` |
| ThemeRuntime.AdditionalSwap | packages/devextreme-cli/src/templates/nextjs/application/src/theme.tsx:26-32 | the additional swatch class goes from `dx-swatch-additional-dark` to `dx-swatch-additional` when the previous theme was dark, and the other way round otherwise |
| ThemeRuntime.ToggleTheme | packages/devextreme-cli/src/templates/nextjs/application/src/theme.tsx:16-38 | the result is the next theme; with `window` the body swatch moves from the old to the new theme, the additional swatch gains `-dark` iff the old theme was not dark, and `currentTheme` is updated; without `window` the state is unchanged and nothing is swapped |
| ThemeRuntime.ToggleChangesClasses | packages/devextreme-cli/src/templates/nextjs/application/src/theme.tsx:21-32 | with `window`, both class swaps always change the class name, for every previous theme |
| ThemeRuntime.IsDark | packages/devextreme-cli/src/templates/nextjs/application/src/theme.tsx:43-45 | `isDark` holds iff the module's `currentTheme` is `dark` |
| ThemeRuntime.InitialSwatch | packages/devextreme-cli/src/templates/nextjs/application/src/theme.tsx:47-51 | the current theme's swatch class is added iff `window` is defined and the body has no swatch class yet |
| ThemeRuntime.Mount | packages/devextreme-cli/src/templates/nextjs/application/src/theme.tsx:41 | a mounted component's React state starts at the module's `currentTheme`, and mounting leaves the module state alone |
| ThemeRuntime.InitialSession | packages/devextreme-cli/src/templates/nextjs/application/src/theme.tsx:41 | the React state and the module state both start at `light` |
| ThemeRuntime.Switch | packages/devextreme-cli/src/templates/nextjs/application/src/theme.tsx:16-42 | a switch moves the React state to the next theme; with `window` the module state follows it, and without `window` the module state is untouched |
| ThemeRuntime.SwitchTimesWithWindow | packages/devextreme-cli/src/templates/nextjs/application/src/theme.tsx:34-42 | with `window`, from any session whose React state and `currentTheme` agree on a listed theme, every number of switches keeps them equal, alternating from that theme |
| ThemeRuntime.SwitchTimesWithoutWindow | packages/devextreme-cli/src/templates/nextjs/application/src/theme.tsx:20-42 | without `window`, from any session on a listed theme, switches alternate the React state and never touch `currentTheme` |
| ThemeRuntime.RemountSwitches | packages/devextreme-cli/src/templates/nextjs/application/src/theme.tsx:40-42 | a component mounted later, while `currentTheme` is a listed theme, keeps its React state equal to `currentTheme` through switches with `window`, and is back at the mount theme iff the number of switches is even |
| ThemeRuntime.SwitchParity | packages/devextreme-cli/src/templates/nextjs/application/src/theme.tsx:40-45 | with `window`, after n switches the React state and the module state agree, the theme is `light` iff n is even, and `isDark` holds iff n is odd |
| ThemeRuntime.SwitchWithoutWindow | packages/devextreme-cli/src/templates/nextjs/application/src/theme.tsx:40-45 | without `window`, the React state still alternates, but the module state stays `light` and `isDark` stays false |

## Left out

- Running `npx`/`npm`, `packageManager.runInstall` and the interactive prompts: these are external processes and user I/O. Their results are inputs, and the commands are recorded as `RunCommand` actions.
- File-system effects (`existsSync`, `mkdirSync`, `readFileSync`/`writeFileSync`, file removal):
  - file existence is a boolean input;
  - file text is a string argument;
  - directory and file creation are recorded as actions.
- The utilities the orchestrators call: `templateCreator.moveTemplateFilesToProject`/`addPageToApp`, `moduleUtils.insertImport`/`insertExport`, `insertItemToArray`, `typescriptUtils.setFileExtension`/`isTypeScript`, `packageJsonUtils`, `modifyJson`, `extractDepsVersionTag`, `latestVersions`, and the casing helpers. None of them is part of this model. Only the arguments passed to them are modelled, and their own behaviour is not assumed.
- `addTemplate` and everything it calls: `create` records it as one `AddTemplate` action carrying the template options. Not modelled, therefore:
  - React's removal of `src/types.jsx` when the template is not TypeScript (`application.react.js:132`);
  - the sample pages added unless the `empty` option is set (`application.react.js:134-136`, `application.vue.js:99-101`);
  - React's `preparePackageJsonForTemplate` (`application.react.js:31-45`): its dependency list (`sass-embedded`, the dev entry `devextreme-cli`, `react-router-dom`), its `build-themes` and `postinstall` scripts and the package-name update;
  - Vue's `preparePackageJsonForTemplate` beyond its dependency list: the same two scripts and the package-name update (`application.vue.js:29-36`);
  - the five style paths both orchestrators pass to `install` (`application.react.js:122-128`, `application.vue.js:90-96`) and React's manifest-name update (`application.react.js:139`);
  - `install` itself: React picks `src/App.tsx` or `src/App.jsx` from the project's extension (`application.react.js:146`), both add the style imports and the `devextreme` dependency, and both run the package install.
- `Object.assign`, which copies every other CLI option into React's template options, and the deps-version-tag key of Vue's template options. The options record holds only the fields the orchestrators set or read.
- The template-marker rendering of `theme.tsx` (the `isTypeScript` sections) and the `<%= name %>` markers: the renderer is not part of this model.
- The React hooks (`useState`, `useCallback`, `useLayoutEffect`, `useMemo`, the context provider) and the DOM. The effect of `toggleTheme` is a returned `Toggle` value holding the requested class swaps. Whether `querySelector` finds an element carrying the additional swatch class is not modelled.
- `testing/env.nextjs.js`: it spawns the CLI and writes files, so it is all I/O.
- The Angular `__name__.ts` layout template: it depends on Angular services and schematic rendering that are not part of this model.
- `path.join` normalisation: paths are sequences of segments.
- `insertImport`'s omitted default-import flag in React's `add view` is `undefined` in the source. It is modelled as `false`.
- Strings are sequences of Unicode code points, not UTF-16 code units. The title patterns only distinguish ASCII word characters, white space and `<`, so nothing in the model depends on the difference.
- Pages.TitleRewrite: stated only for app names without `$`. ReplaceTitle itself models every `$`-pattern, but the closed-form rewrite does not hold once the humanized name contains one.
- ReactApplication.IndexHtmlTitle: stated only for app names without `$`, for the same reason.
- VueApplication.IndexHtmlTitle: stated only for app names without `$`, for the same reason.
- ReactApplication.IndexHtmlRewrite: stated only for app names without `$`, because its closed form of the title step is wrong for names such as `$&`, which nest the old title element inside the new one (Pages.TitleOfMatch). Pages.BodyStepAfter states the body step after any title step.
- VueApplication.IndexHtmlRewrite: stated only for app names without `$`, for the same reason.
