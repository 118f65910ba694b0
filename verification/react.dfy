/** The React orchestrator (`application.react.js`): what `create` and
    `add view` compute before they call the template, module and package.json
    utilities, and the `index.html` rewrite. */
module ReactApplication {
  import opened JsText
  import opened Dependencies
  import opened Fragments
  import opened Collaborators
  import opened TitlePattern
  import opened Pages

  /** `getExtension`: a project is TypeScript exactly when `src/App.tsx` exists. */
  function ProjectExtension(appTsxExists: bool): (r: string)
    ensures r == ".tsx" <==> appTsxExists
    ensures r == ".jsx" <==> !appTsxExists
  {
    if appTsxExists then ".tsx" else ".jsx"
  }

  function PagesIndexPath(cwd: Path, appTsxExists: bool): Path {
    cwd + ["src", "pages", "index" + ProjectExtension(appTsxExists)]
  }

  function RoutingModulePath(cwd: Path, appTsxExists: bool): Path {
    cwd + ["src", "app-routes" + ProjectExtension(appTsxExists)]
  }

  function NavigationModulePath(cwd: Path, appTsxExists: bool): Path {
    cwd + ["src", "app-navigation" + ProjectExtension(appTsxExists)]
  }

  /** The pages index, the routing module and the navigation module all carry
      the one project extension: `.tsx` iff `App.tsx` exists, else `.jsx`. */
  lemma ModulePathsShareExtension(cwd: Path, appTsxExists: bool)
    ensures var ps := [PagesIndexPath(cwd, appTsxExists), RoutingModulePath(cwd, appTsxExists),
                       NavigationModulePath(cwd, appTsxExists)];
            forall k :: 0 <= k < 3 ==>
              && |ps[k]| > |cwd|
              && (EndsWith(ps[k][|ps[k]| - 1], ".tsx") <==> appTsxExists)
              && (EndsWith(ps[k][|ps[k]| - 1], ".jsx") <==> !appTsxExists)
  {
    var ext := ProjectExtension(appTsxExists);
    var names := ["index" + ext, "app-routes" + ext, "app-navigation" + ext];
    forall k | 0 <= k < 3
      ensures (EndsWith(names[k], ".tsx") <==> appTsxExists) && (EndsWith(names[k], ".jsx") <==> !appTsxExists)
    {
      assert names[k][|names[k]| - 4..] == ext;
    }
  }

  /** `getCorrectPath`, the path policy for copying the application and
      sample-page templates: only `.ts`/`.tsx` files go through
      `setFileExtension` (whose implementation is not part of this model). */
  function CorrectPath(setFileExtension: (string, bool) -> string, extension: string,
                       pathToApp: string, isTypeScript: bool): (r: string)
    ensures extension != ".ts" && extension != ".tsx" ==> r == pathToApp
    ensures extension == ".ts" || extension == ".tsx" ==> r == setFileExtension(pathToApp, isTypeScript)
  {
    if extension == ".ts" || extension == ".tsx" then setFileExtension(pathToApp, isTypeScript) else pathToApp
  }

  /** `getCorrectExtension` of `addView`: `.tsx` becomes the project extension. */
  function PageExtensionPolicy(appTsxExists: bool): ExtensionPolicy {
    TsxBecomes(ProjectExtension(appTsxExists))
  }

  /** A page file's `.tsx` becomes the project extension and every other
      extension is kept; in a TypeScript project nothing changes, and applying
      the policy twice is applying it once. */
  lemma PageExtensionMapping(appTsxExists: bool, fileExtension: string)
    ensures var p := PageExtensionPolicy(appTsxExists);
            && ApplyExtensionPolicy(p, fileExtension)
                 == (if fileExtension == ".tsx" then ProjectExtension(appTsxExists) else fileExtension)
            && (appTsxExists ==> ApplyExtensionPolicy(p, fileExtension) == fileExtension)
            && ApplyExtensionPolicy(p, ApplyExtensionPolicy(p, fileExtension)) == ApplyExtensionPolicy(p, fileExtension)
  {
  }

  /** `getComponentPageName`: the class-cased view name followed by `Page`. */
  function ComponentPageName(casing: Casing, viewName: string): (r: string)
    ensures EndsWith(r, "Page")
    ensures r[..|r| - 4] == casing.classify(viewName)
  {
    casing.classify(viewName) + "Page"
  }

  /** `getNavigationData`: the route record (path and element) and the
      navigation record (text, path and icon), both on a fresh line and with
      no leading comma, both pointing at `'/' + dasherize(viewName)`. */
  function NavigationFragments(casing: Casing, viewName: string, componentName: string, icon: string)
    : (r: NavigationData)
    ensures r.route == "\n  {\n"
                       + ("    path: '" + PagePath(casing, viewName) + "'") + ",\n"
                       + ("    element: " + componentName) + "\n  }"
    ensures r.navigation == "\n  {\n"
                            + ("    text: '" + casing.humanize(viewName) + "'") + ",\n"
                            + ("    path: '" + PagePath(casing, viewName) + "'") + ",\n"
                            + ("    icon: '" + icon + "'") + "\n  }"
    ensures r.route[0] == '\n' && r.navigation[0] == '\n'
  {
    var p := PagePath(casing, viewName);
    var path := Field("path", Quoted('\'', p));
    var element := Field("element", componentName);
    RecordOfTwo("  ", path, element);
    PathLine(p);
    ElementLine(componentName);
    var route := Record("  ", [path, element]);
    assert route == "\n" + "  " + "{\n" + ("    path: '" + p + "'") + ",\n" + ("    element: " + componentName)
                    + "\n" + "  " + "}";
    assert "\n" + "  " + "{\n" == "\n  {\n";
    assert "\n" + "  " + "}" == "\n  }";
    CloseRecord("\n  {\n" + ("    path: '" + p + "'") + ",\n" + ("    element: " + componentName), "  ");
    NavigationData(route, NavigationRecord(casing, viewName, icon))
  }

  lemma ElementLine(c: string)
    ensures Line("  " + "  ", Field("element", c)) == "    element: " + c
  {
  }

  /** `bumpReact`: `react` and `react-dom` at the tag, then, for a TypeScript
      project only, their `@types` packages as dev dependencies. */
  function BumpReactDependencies(versionTag: string, isTypeScript: bool): (r: seq<Dependency>)
    ensures |r| == if isTypeScript then 4 else 2
    ensures r[0] == Dependency("react", versionTag, false)
    ensures r[1] == Dependency("react-dom", versionTag, false)
    ensures isTypeScript ==>
              r[2] == Dependency("@types/react", versionTag, true) && r[3] == Dependency("@types/react-dom", versionTag, true)
    ensures forall k :: 0 <= k < |r| ==> r[k].version == versionTag
    ensures (exists k :: 0 <= k < |r| && r[k].dev) <==> isTypeScript
  {
    var deps := [Dependency("react", versionTag, false), Dependency("react-dom", versionTag, false)];
    if isTypeScript then
      deps + [Dependency("@types/react", versionTag, true), Dependency("@types/react-dom", versionTag, true)]
    else deps
  }

  /** The `create-vite` template name: `react`, then `-swc` for the SWC
      transpiler, then `-ts` for TypeScript. */
  function ViteTemplate(transpiler: string, isTypeScript: bool): (r: string)
    ensures r in ["react", "react-ts", "react-swc", "react-swc-ts"]
  {
    assert "react" + "" + "" == "react";
    assert "react" + "" + "-ts" == "react-ts";
    assert "react" + "-swc" + "" == "react-swc";
    assert "react" + "-swc" + "-ts" == "react-swc-ts";
    "react" + (if transpiler == "swc" then "-swc" else "") + (if isTypeScript then "-ts" else "")
  }

  /** Reads the transpiler and language choices back from a template name. */
  function ParseViteTemplate(name: string): Option<(bool, bool)> {
    if name == "react" then Some((false, false))
    else if name == "react-ts" then Some((false, true))
    else if name == "react-swc" then Some((true, false))
    else if name == "react-swc-ts" then Some((true, true))
    else None
  }

  /** The template name records both choices, so distinct choices never
      produce the same `create-vite` template. */
  lemma ViteTemplateRoundTrip(transpiler: string, isTypeScript: bool)
    ensures ParseViteTemplate(ViteTemplate(transpiler, isTypeScript)) == Some((transpiler == "swc", isTypeScript))
  {
    assert "react" + "" + "" == "react";
    assert "react" + "" + "-ts" == "react-ts";
    assert "react" + "-swc" + "" == "react-swc";
    assert "react" + "-swc" + "-ts" == "react-swc-ts";
  }

  /** The `npx` arguments of `create`: the pinned `create-vite` package (the
      version tag when it is truthy, else the latest known version), the
      command, the application name and the template option. */
  function CreateViteArguments(appName: string, transpiler: string, isTypeScript: bool,
                               depsVersionTag: Option<string>, latestCreateVite: string): (r: seq<string>)
    ensures |r| == 4 && r[1] == "create-vite" && r[2] == appName
    ensures Truthy(depsVersionTag) ==> r[0] == "-p=create-vite@" + depsVersionTag.value
    ensures !Truthy(depsVersionTag) ==> r[0] == "-p=create-vite@" + latestCreateVite
    ensures r[3] == "--template " + ViteTemplate(transpiler, isTypeScript)
  {
    var version := if Truthy(depsVersionTag) then depsVersionTag.value else latestCreateVite;
    ["-p=create-vite@" + version, "create-vite", appName,
     "--template react" + (if transpiler == "swc" then "-swc" else "") + (if isTypeScript then "-ts" else "")]
  }

  /** The answers and options `create` works from: the prompts' answers
      (`isTypeScript` as `typescriptUtils.isTypeScript` reports it), the
      `empty` option, the extracted dependency version tag, and the latest
      known `create-vite` version. */
  datatype CreateInputs = CreateInputs(cwd: Path, appName: string, isTypeScript: bool, transpiler: string,
                                       layoutType: string, empty: bool, depsVersionTag: Option<string>,
                                       latestCreateVite: string)

  /** `create`: scaffold with `create-vite`, rewrite `index.html` with the
      humanized name, bump React to the version tag when one is given, then
      add the application template. */
  function CreatePlan(casing: Casing, inputs: CreateInputs): (r: seq<Action>)
    ensures |r| == if Truthy(inputs.depsVersionTag) then 4 else 3
    ensures r[0] == RunCommand("npx", CreateViteArguments(inputs.appName, inputs.transpiler, inputs.isTypeScript,
                                                         inputs.depsVersionTag, inputs.latestCreateVite))
    ensures r[1] == RewriteIndexHtml(inputs.cwd + [inputs.appName], casing.humanize(inputs.appName))
    ensures (exists k :: 0 <= k < |r| && r[k].AddDependencies?) <==> Truthy(inputs.depsVersionTag)
    ensures Truthy(inputs.depsVersionTag) ==>
              r[2] == AddDependencies(inputs.cwd + [inputs.appName],
                                      BumpReactDependencies(inputs.depsVersionTag.value, inputs.isTypeScript))
    ensures r[|r| - 1] == AddTemplate(inputs.cwd + [inputs.appName], inputs.appName,
                                      TemplateOptions(casing.humanize(inputs.appName), casing.classify(inputs.layoutType),
                                                      inputs.isTypeScript, inputs.empty))
  {
    var appPath := inputs.cwd + [inputs.appName];
    var options := TemplateOptions(casing.humanize(inputs.appName), casing.classify(inputs.layoutType),
                                   inputs.isTypeScript, inputs.empty);
    var args := CreateViteArguments(inputs.appName, inputs.transpiler, inputs.isTypeScript,
                                    inputs.depsVersionTag, inputs.latestCreateVite);
    var bump := if Truthy(inputs.depsVersionTag)
                then [AddDependencies(appPath, BumpReactDependencies(inputs.depsVersionTag.value, inputs.isTypeScript))]
                else [];
    var r := [RunCommand("npx", args), RewriteIndexHtml(appPath, options.project)] + bump
             + [AddTemplate(appPath, inputs.appName, options)];
    assert Truthy(inputs.depsVersionTag) ==> r[2].AddDependencies?;
    assert !Truthy(inputs.depsVersionTag) ==> forall k :: 0 <= k < |r| ==> !r[k].AddDependencies?;
    r
  }

  /** `create` pins the scaffolder and the bumped packages to one version:
      with a truthy tag, `create-vite` and every bumped dependency carry that
      tag; otherwise `create-vite` is at its latest version and nothing is
      bumped. */
  lemma CreatePinsOneVersion(casing: Casing, inputs: CreateInputs)
    ensures var r := CreatePlan(casing, inputs);
            var tag := inputs.depsVersionTag;
            && r[0].RunCommand?
            && r[0].args[0] == "-p=create-vite@" + (if Truthy(tag) then tag.value else inputs.latestCreateVite)
            && (forall k :: 0 <= k < |r| && r[k].AddDependencies? ==>
                  Truthy(tag) && forall j :: 0 <= j < |r[k].deps| ==> r[k].deps[j].version == tag.value)
            && (!Truthy(tag) ==> forall k :: 0 <= k < |r| ==> !r[k].AddDependencies?)
  {
    var r := CreatePlan(casing, inputs);
    forall k | 0 <= k < |r| && r[k].AddDependencies?
      ensures Truthy(inputs.depsVersionTag)
      ensures forall j :: 0 <= j < |r[k].deps| ==> r[k].deps[j].version == inputs.depsVersionTag.value
    {
      assert k == 2;
    }
  }

  /** `modifyIndexHtml` on the text of `index.html`. */
  function IndexHtml(html: string, appName: string): string {
    ModifyIndexHtml(AnyButLt, html, appName)
  }

  /** The React `<title>` pattern: the leftmost `<title>text</title>` whose
      text is non-empty and has no `<` becomes `<title>appName</title>`, for
      an app name without `$`; everything around it is kept. */
  lemma IndexHtmlTitle(html: string, appName: string, i: nat, text: string)
    requires NoDollar(appName)
    requires OccursAt(html, Open + text + Close, i)
    requires |text| > 0 && forall k :: 0 <= k < |text| ==> text[k] != '<'
    requires NoTitleBefore(AnyButLt, html, i)
    ensures TitleStep(AnyButLt, html, appName)
            == html[..i] + Open + appName + Close + html[i + |Open| + |text| + |Close|..]
  {
    var e := i + |Open| + |text| + |Close|;
    var t := html[i..e];
    assert t == Open + text + Close;
    assert t[..|Open|] == Open;
    assert t[|t| - |Close|..] == Close;
    forall k | |Open| <= k < |t| - |Close| ensures InText(AnyButLt, t[k]) {
      assert t[k] == text[k - |Open|];
    }
    assert IsTitleElement(AnyButLt, t);
    TitleRewrite(AnyButLt, html, appName, i, e);
  }

  /** The whole `modifyIndexHtml` for a title this pattern matches: the title
      is rewritten as `IndexHtmlTitle` states, then the first `<body>` of the
      result, if there is one, gets the `dx-viewport` class. */
  lemma IndexHtmlRewrite(html: string, appName: string, i: nat, text: string)
    requires NoDollar(appName)
    requires OccursAt(html, Open + text + Close, i)
    requires |text| > 0 && forall k :: 0 <= k < |text| ==> text[k] != '<'
    requires NoTitleBefore(AnyButLt, html, i)
    ensures var t := html[..i] + Open + appName + Close + html[i + |Open| + |text| + |Close|..];
            && (Find(t, BodyTag, 0).None? ==> IndexHtml(html, appName) == t)
            && (Find(t, BodyTag, 0).Some? ==>
                  var b := Find(t, BodyTag, 0).value;
                  IndexHtml(html, appName) == t[..b] + ViewportBodyTag + t[b + |BodyTag|..])
  {
    var t := html[..i] + Open + appName + Close + html[i + |Open| + |text| + |Close|..];
    IndexHtmlTitle(html, appName, i, text);
    BodyStepAfter(AnyButLt, html, appName, t);
  }

  /** Where the project stands when `add view` runs: the working directory,
      whether `src/App.tsx`, `src/pages` and `src/pages/<name>` exist, and
      the React template root. */
  datatype ProjectState = ProjectState(cwd: Path, appTsxExists: bool, pagesDirExists: bool,
                                       pageDirExists: bool, templateRoot: Path)

  /** `createPathToPage`: the first page creates `src/pages` and then an empty
      pages index in it; the page gets its own directory, last, unless it
      already has one. Nothing else happens. */
  function PageDirectorySetup(pageName: string, st: ProjectState): (r: seq<Action>)
    ensures MakeDirectory(st.cwd + ["src", "pages"]) in r <==> !st.pagesDirExists
    ensures WriteFile(PagesIndexPath(st.cwd, st.appTsxExists), "") in r <==> !st.pagesDirExists
    ensures MakeDirectory(st.cwd + ["src", "pages", pageName]) in r <==> !st.pagesDirExists || !st.pageDirExists
    ensures |r| == if !st.pagesDirExists then 3 else if !st.pageDirExists then 1 else 0
    ensures !st.pagesDirExists ==> && r[0] == MakeDirectory(st.cwd + ["src", "pages"])
                                   && r[1] == WriteFile(PagesIndexPath(st.cwd, st.appTsxExists), "")
    ensures |r| > 0 ==> r[|r| - 1] == MakeDirectory(st.cwd + ["src", "pages", pageName])
    ensures forall k :: 0 <= k < |r| ==> r[k].MakeDirectory? || r[k].WriteFile?
  {
    var pagesPath := st.cwd + ["src", "pages"];
    var pagePath := st.cwd + ["src", "pages", pageName];
    assert pagePath != pagesPath by { assert |pagePath| != |pagesPath|; }
    (if st.pagesDirExists then [] else [MakeDirectory(pagesPath), WriteFile(PagesIndexPath(st.cwd, st.appTsxExists), "")])
    + (if st.pagesDirExists && st.pageDirExists then [] else [MakeDirectory(pagePath)])
  }

  /** The four source edits of `addView`, in order: re-export the page from
      the pages index, import it into the routing module, append the route
      record to the routes array and the navigation record to the navigation
      array. */
  function ViewEdits(casing: Casing, pageName: string, options: Option<ViewOptions>, st: ProjectState)
    : (r: seq<Action>)
    ensures |r| == 4 && forall k :: 0 <= k < |r| ==> IsSourceEdit(r[k])
  {
    var componentName := ComponentPageName(casing, pageName);
    var data := NavigationFragments(casing, pageName, componentName, ResolveIcon(options));
    var routing := RoutingModulePath(st.cwd, st.appTsxExists);
    [InsertExport(PagesIndexPath(st.cwd, st.appTsxExists), componentName, "./" + pageName + "/" + pageName, "Page"),
     InsertImport(routing, "./pages", componentName, false),
     InsertItemToArray(routing, data.route),
     InsertItemToArray(NavigationModulePath(st.cwd, st.appTsxExists), data.navigation)]
  }

  /** `addView`: set up the page directory, render the page template with
      `.tsx` mapped to the project extension, then make the source edits. */
  function AddViewPlan(casing: Casing, pageName: string, options: Option<ViewOptions>, st: ProjectState)
    : (r: seq<Action>)
    ensures var setup := PageDirectorySetup(pageName, st);
            && |r| == |setup| + 5
            && r[..|setup|] == setup
            && r[|setup|] == AddPageToApp(pageName, st.cwd + ["src", "pages", pageName], st.templateRoot + ["page"],
                                          PageExtensionPolicy(st.appTsxExists))
    ensures SourceEdits(r) == ViewEdits(casing, pageName, options, st)
  {
    var setup := PageDirectorySetup(pageName, st);
    var page := AddPageToApp(pageName, st.cwd + ["src", "pages", pageName], st.templateRoot + ["page"],
                             PageExtensionPolicy(st.appTsxExists));
    var edits := ViewEdits(casing, pageName, options, st);
    Plan(setup, page, edits)
  }

  /** `add view` edits the source exactly four times: one export into the pages
      index, one import and one route record into the routing module, and one
      navigation record into the navigation module; the route record carries
      the page's path and component, the navigation record its label, path and
      icon (`'folder'` unless a truthy icon is given). */
  lemma AddViewEditsExactly(casing: Casing, pageName: string, options: Option<ViewOptions>, st: ProjectState)
    ensures var componentName := casing.classify(pageName) + "Page";
            var icon := if options.Some? && Truthy(options.value.icon) then options.value.icon.value else "folder";
            var routing := RoutingModulePath(st.cwd, st.appTsxExists);
            var path := "/" + casing.dasherize(pageName);
            SourceEdits(AddViewPlan(casing, pageName, options, st)) ==
              [InsertExport(PagesIndexPath(st.cwd, st.appTsxExists), componentName, "./" + pageName + "/" + pageName, "Page"),
               InsertImport(routing, "./pages", componentName, false),
               InsertItemToArray(routing, "\n  {\n" + ("    path: '" + path + "'") + ",\n"
                                          + ("    element: " + componentName) + "\n  }"),
               InsertItemToArray(NavigationModulePath(st.cwd, st.appTsxExists),
                                 "\n  {\n" + ("    text: '" + casing.humanize(pageName) + "'") + ",\n"
                                 + ("    path: '" + path + "'") + ",\n" + ("    icon: '" + icon + "'") + "\n  }")]
  {
  }
}
