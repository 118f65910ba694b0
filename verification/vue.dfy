/** The Vue orchestrator (`application.vue.js`): what `create` and `add view`
    compute before they call the template, module and package.json utilities,
    and the `index.html` rewrite. */
module VueApplication {
  import opened JsText
  import opened Dependencies
  import opened Fragments
  import opened Collaborators
  import opened TitlePattern
  import opened Pages
  import ReactApplication

  /** `getComponentPageName`: the class-cased view name, with no suffix. */
  function ComponentPageName(casing: Casing, viewName: string): (r: string)
    ensures r == casing.classify(viewName)
  {
    casing.classify(viewName)
  }

  /** The React and Vue component names of a page differ only in React's
      `Page` suffix. */
  lemma ComponentNamesAgree(casing: Casing, viewName: string)
    ensures ReactApplication.ComponentPageName(casing, viewName) == ComponentPageName(casing, viewName) + "Page"
  {
  }

  /** The route record's `meta` value: an object requiring authentication
      under the default layout. */
  const Meta: string := "{\n        requiresAuth: true,\n        layout: defaultLayout\n      }"

  /** `getVueRoute`: a route record with a double-quoted `path` and `name`, the
      `meta` object, and the component last. */
  function VueRoute(casing: Casing, viewName: string, componentName: string, pagePath: string): (r: string)
    ensures r == "\n    {\n"
                 + ("      path: \"/" + pagePath + "\"") + ",\n"
                 + ("      name: \"" + casing.dasherize(viewName) + "\"") + ",\n"
                 + ("      meta: " + Meta) + ",\n"
                 + ("      component: " + componentName) + "\n    }"
    ensures r[0] == '\n'
  {
    var name := casing.dasherize(viewName);
    var path := Field("path", Quoted('"', "/" + pagePath));
    var nameField := Field("name", Quoted('"', name));
    var metaField := Field("meta", Meta);
    var component := Field("component", componentName);
    RecordOfFour("    ", path, nameField, metaField, component);
    RoutePathLine(pagePath);
    RouteNameLine(name);
    MetaLine();
    ComponentLine(componentName);
    var r := Record("    ", [path, nameField, metaField, component]);
    assert r == "\n" + "    " + "{\n" + ("      path: \"/" + pagePath + "\"") + ",\n" + ("      name: \"" + name + "\"")
                + ",\n" + ("      meta: " + Meta) + ",\n" + ("      component: " + componentName) + "\n" + "    " + "}";
    assert "\n" + "    " + "{\n" == "\n    {\n";
    assert "\n" + "    " + "}" == "\n    }";
    CloseRecord("\n    {\n" + ("      path: \"/" + pagePath + "\"") + ",\n" + ("      name: \"" + name + "\"")
                + ",\n" + ("      meta: " + Meta) + ",\n" + ("      component: " + componentName), "    ");
    r
  }

  lemma RoutePathLine(p: string)
    ensures Line("    " + "  ", Field("path", Quoted('"', "/" + p))) == "      path: \"/" + p + "\""
  {
  }

  lemma RouteNameLine(n: string)
    ensures Line("    " + "  ", Field("name", Quoted('"', n))) == "      name: \"" + n + "\""
  {
  }

  lemma MetaLine()
    ensures Line("    " + "  ", Field("meta", Meta)) == "      meta: " + Meta
  {
  }

  lemma ComponentLine(c: string)
    ensures Line("    " + "  ", Field("component", c)) == "      component: " + c
  {
  }

  /** `getNavigationData`: the route record, named by the dasherized view
      name, and the navigation record, labelled by the humanized one, both on
      a fresh line and both pointing at `'/' + dasherize(viewName)`. */
  function NavigationFragments(casing: Casing, viewName: string, componentName: string, icon: string)
    : (r: NavigationData)
    ensures r.route == "\n    {\n"
                       + ("      path: \"" + PagePath(casing, viewName) + "\"") + ",\n"
                       + ("      name: \"" + casing.dasherize(viewName) + "\"") + ",\n"
                       + ("      meta: " + Meta) + ",\n"
                       + ("      component: " + componentName) + "\n    }"
    ensures r.navigation == "\n  {\n"
                            + ("    text: '" + casing.humanize(viewName) + "'") + ",\n"
                            + ("    path: '" + PagePath(casing, viewName) + "'") + ",\n"
                            + ("    icon: '" + icon + "'") + "\n  }"
    ensures r.route[0] == '\n' && r.navigation[0] == '\n'
  {
    var n := casing.dasherize(viewName);
    var route := VueRoute(casing, viewName, componentName, n);
    SlashPathLine(n);
    assert ("      path: \"/" + n + "\"") == ("      path: \"" + PagePath(casing, viewName) + "\"");
    NavigationData(route, NavigationRecord(casing, viewName, icon))
  }

  lemma SlashPathLine(n: string)
    ensures "      path: \"/" + n == "      path: \"" + ("/" + n)
  {
    assert "      path: \"/" == "      path: \"" + "/";
  }

  /** `getCorrectPath`: template files keep their paths. */
  function CorrectPath(extension: string, pathToApp: string): (r: string)
    ensures r == pathToApp
  {
    pathToApp
  }

  /** The Vue and React path policies agree on every file that is not
      TypeScript source; on `.ts`/`.tsx` files Vue keeps the path where React
      hands it to `setFileExtension`. */
  lemma CorrectPathsAgree(setFileExtension: (string, bool) -> string, extension: string,
                          pathToApp: string, isTypeScript: bool)
    ensures extension != ".ts" && extension != ".tsx" ==>
              ReactApplication.CorrectPath(setFileExtension, extension, pathToApp, isTypeScript)
                == CorrectPath(extension, pathToApp)
    ensures extension == ".ts" || extension == ".tsx" ==>
              && CorrectPath(extension, pathToApp) == pathToApp
              && ReactApplication.CorrectPath(setFileExtension, extension, pathToApp, isTypeScript)
                   == setFileExtension(pathToApp, isTypeScript)
  {
  }

  /** `preparePackageJsonForTemplate`: the template's dependency list, with
      the `vue-router` entry's version overridden by looking it up by name. */
  function TemplateDependencies(latestCli: string): (r: Result<seq<Dependency>>)
    ensures r.Ok?
    ensures r.value == [Dependency("sass-embedded", "^1.85.1", false),
                        Dependency("vue-router", "^4.0.1", false),
                        Dependency("devextreme-cli", latestCli, true)]
  {
    var deps := [Dependency("sass-embedded", "^1.85.1", false),
                 Dependency("vue-router", "^3.0.1", false),
                 Dependency("devextreme-cli", latestCli, true)];
    assert FirstNamed(deps, "vue-router", 1);
    assert !FirstNamed(deps, "vue-router", 0) && !FirstNamed(deps, "vue-router", 2);
    SetVersion(deps, "vue-router", "^4.0.1")
  }

  /** The `create-vue` version: the tag when it is truthy, else the latest
      known version. */
  function CreateVueVersion(depsVersionTag: Option<string>, latestCreateVue: string): (r: string)
    ensures Truthy(depsVersionTag) ==> r == depsVersionTag.value
    ensures !Truthy(depsVersionTag) ==> r == latestCreateVue
  {
    if Truthy(depsVersionTag) then depsVersionTag.value else latestCreateVue
  }

  /** `createVueApp`'s `npm` arguments: `create vue@<version> <name>` against
      the public registry, then, after `--`, the `create-vue` flags. */
  function CreateVueArguments(name: string, depsVersionTag: Option<string>, latestCreateVue: string)
    : (r: seq<string>)
    ensures |r| == 9
    ensures r[0] == "create" && r[1] == "vue@" + CreateVueVersion(depsVersionTag, latestCreateVue) && r[2] == name
    ensures r[3..5] == ["--registry", "https://registry.npmjs.org/"]
    ensures r[5] == "--" && r[6..] == ["--eslint", "--default", "--bare"]
  {
    ["create", "vue@" + CreateVueVersion(depsVersionTag, latestCreateVue), name,
     "--registry", "https://registry.npmjs.org/", "--", "--eslint", "--default", "--bare"]
  }

  /** `bumpVue`: `vue` and `vue-router` pinned to the tag. */
  function BumpVueDependencies(versionTag: string): (r: seq<Dependency>)
    ensures Names(r) == ["vue", "vue-router"]
    ensures forall k :: 0 <= k < |r| ==> r[k].version == versionTag && !r[k].dev
  {
    [Dependency("vue", versionTag, false), Dependency("vue-router", versionTag, false)]
  }

  /** The answers and options `create` works from. */
  datatype CreateInputs = CreateInputs(cwd: Path, appName: string, layout: string,
                                       depsVersionTag: Option<string>, latestCreateVue: string)

  /** `create`: scaffold with `create-vue`, pin `vue` and `vue-router` to the
      version tag only when one is given, rewrite `index.html` with the
      humanized name, then add the application template. The template options
      carry the layout as the prompt returned it; the source sets neither a
      TypeScript flag nor `empty`, so both are recorded as `false`, which is
      how the only reader, `!templateOptions.empty`, treats the missing key. */
  function CreatePlan(casing: Casing, inputs: CreateInputs): (r: seq<Action>)
    ensures |r| == if Truthy(inputs.depsVersionTag) then 4 else 3
    ensures r[0] == RunCommand("npm", CreateVueArguments(inputs.appName, inputs.depsVersionTag, inputs.latestCreateVue))
    ensures (exists k :: 0 <= k < |r| && r[k].AddDependencies?) <==> Truthy(inputs.depsVersionTag)
    ensures Truthy(inputs.depsVersionTag) ==>
              r[1] == AddDependencies(inputs.cwd + [inputs.appName], BumpVueDependencies(inputs.depsVersionTag.value))
    ensures r[|r| - 2] == RewriteIndexHtml(inputs.cwd + [inputs.appName], casing.humanize(inputs.appName))
    ensures r[|r| - 1] == AddTemplate(inputs.cwd + [inputs.appName], inputs.appName,
                                      TemplateOptions(casing.humanize(inputs.appName), inputs.layout, false, false))
  {
    var appPath := inputs.cwd + [inputs.appName];
    var options := TemplateOptions(casing.humanize(inputs.appName), inputs.layout, false, false);
    var bump := if Truthy(inputs.depsVersionTag)
                then [AddDependencies(appPath, BumpVueDependencies(inputs.depsVersionTag.value))]
                else [];
    var r := [RunCommand("npm", CreateVueArguments(inputs.appName, inputs.depsVersionTag, inputs.latestCreateVue))]
             + bump + [RewriteIndexHtml(appPath, options.project), AddTemplate(appPath, inputs.appName, options)];
    assert Truthy(inputs.depsVersionTag) ==> r[1].AddDependencies?;
    assert !Truthy(inputs.depsVersionTag) ==> forall k :: 0 <= k < |r| ==> !r[k].AddDependencies?;
    r
  }

  /** `create` pins the scaffolder and the bumped packages to one version:
      with a truthy tag, `create-vue` and every bumped dependency carry that
      tag; otherwise `create-vue` is at its latest version and nothing is
      bumped. */
  lemma CreatePinsOneVersion(casing: Casing, inputs: CreateInputs)
    ensures var r := CreatePlan(casing, inputs);
            var tag := inputs.depsVersionTag;
            && r[0].RunCommand? && r[0].args[1] == "vue@" + (if Truthy(tag) then tag.value else inputs.latestCreateVue)
            && (forall k :: 0 <= k < |r| && r[k].AddDependencies? ==>
                  Truthy(tag) && forall j :: 0 <= j < |r[k].deps| ==> r[k].deps[j].version == tag.value)
            && (!Truthy(tag) ==> forall k :: 0 <= k < |r| ==> !r[k].AddDependencies?)
  {
    var r := CreatePlan(casing, inputs);
    forall k | 0 <= k < |r| && r[k].AddDependencies?
      ensures Truthy(inputs.depsVersionTag)
      ensures forall j :: 0 <= j < |r[k].deps| ==> r[k].deps[j].version == inputs.depsVersionTag.value
    {
      assert k == 1;
    }
  }

  /** `modifyIndexHtml` on the text of `index.html`. */
  function IndexHtml(html: string, appName: string): string {
    ModifyIndexHtml(WordsAndSpaces, html, appName)
  }

  /** The Vue `<title>` pattern: the leftmost `<title>text</title>` whose text
      is non-empty, starts with a word character and holds only word
      characters and white space becomes `<title>appName</title>`, for an app
      name without `$`; everything around it is kept. */
  lemma IndexHtmlTitle(html: string, appName: string, i: nat, text: string)
    requires NoDollar(appName)
    requires OccursAt(html, Open + text + Close, i)
    requires |text| > 0 && IsWordChar(text[0])
    requires forall k :: 0 <= k < |text| ==> IsWordChar(text[k]) || IsSpaceChar(text[k])
    requires NoTitleBefore(WordsAndSpaces, html, i)
    ensures TitleStep(WordsAndSpaces, html, appName)
            == html[..i] + Open + appName + Close + html[i + |Open| + |text| + |Close|..]
  {
    var e := i + |Open| + |text| + |Close|;
    var t := html[i..e];
    assert t == Open + text + Close;
    assert t[..|Open|] == Open;
    assert t[|t| - |Close|..] == Close;
    assert t[|Open|] == text[0];
    forall k | |Open| <= k < |t| - |Close| ensures InText(WordsAndSpaces, t[k]) {
      assert t[k] == text[k - |Open|];
    }
    TitleRewrite(WordsAndSpaces, html, appName, i, e);
  }

  /** The whole `modifyIndexHtml` for a title this pattern matches: the title
      is rewritten as `IndexHtmlTitle` states, then the first `<body>` of the
      result, if there is one, gets the `dx-viewport` class. */
  lemma IndexHtmlRewrite(html: string, appName: string, i: nat, text: string)
    requires NoDollar(appName)
    requires OccursAt(html, Open + text + Close, i)
    requires |text| > 0 && IsWordChar(text[0])
    requires forall k :: 0 <= k < |text| ==> IsWordChar(text[k]) || IsSpaceChar(text[k])
    requires NoTitleBefore(WordsAndSpaces, html, i)
    ensures var t := html[..i] + Open + appName + Close + html[i + |Open| + |text| + |Close|..];
            && (Find(t, BodyTag, 0).None? ==> IndexHtml(html, appName) == t)
            && (Find(t, BodyTag, 0).Some? ==>
                  var b := Find(t, BodyTag, 0).value;
                  IndexHtml(html, appName) == t[..b] + ViewportBodyTag + t[b + |BodyTag|..])
  {
    var t := html[..i] + Open + appName + Close + html[i + |Open| + |text| + |Close|..];
    IndexHtmlTitle(html, appName, i, text);
    BodyStepAfter(WordsAndSpaces, html, appName, t);
  }

  /** Every title element the Vue pattern matches the React pattern matches
      too, but not conversely: `<title>my-app</title>` is one only React
      rewrites. */
  lemma VueTitlePatternIsStricter(t: string)
    ensures IsTitleElement(WordsAndSpaces, t) ==> IsTitleElement(AnyButLt, t)
    ensures IsTitleElement(AnyButLt, Open + "my-app" + Close)
    ensures !IsTitleElement(WordsAndSpaces, Open + "my-app" + Close)
  {
    var m := Open + "my-app" + Close;
    assert m[|Open| + 2] == '-';
    assert m[..|Open|] == Open && m[|m| - |Close|..] == Close;
    forall k | |Open| <= k < |m| - |Close| ensures m[k] != '<' {
      assert m[k] == "my-app"[k - |Open|];
    }
  }

  /** The Vue pattern's capture group is the whole last word of the title
      with its trailing white space, so `$1` in the app name stands for it:
      either it is the entire title text, or the character before it is not a
      word character. */
  lemma TitleCaptureIsLastWord(html: string, i: nat, e: nat)
    requires i <= e <= |html| && IsTitleElement(WordsAndSpaces, html[i..e])
    ensures IsLastWord(html, i + |Open|, e - |Close|, Captures(WordsAndSpaces, html, i, e)[0])
  {
  }

  /** Where the project stands when `add view` runs: the working directory,
      whether `src/views` exists, and the Vue template root. */
  datatype ProjectState = ProjectState(cwd: Path, viewsDirExists: bool, templateRoot: Path)

  function ViewsPath(cwd: Path): Path {
    cwd + ["src", "views"]
  }

  function RouterPath(cwd: Path): Path {
    cwd + ["src", "router.js"]
  }

  function NavigationModulePath(cwd: Path): Path {
    cwd + ["src", "app-navigation.js"]
  }

  /** The three source edits of `addView`, in order: a default import of the
      page's `.vue` file, bound to the component name, into the router; the
      route record into the routes array; the navigation record into the
      navigation array. */
  function ViewEdits(casing: Casing, pageName: string, options: Option<ViewOptions>, cwd: Path)
    : (r: seq<Action>)
    ensures |r| == 3 && forall k :: 0 <= k < |r| ==> IsSourceEdit(r[k])
  {
    var componentName := ComponentPageName(casing, pageName);
    var data := NavigationFragments(casing, pageName, componentName, ResolveIcon(options));
    [InsertImport(RouterPath(cwd), "./views/" + pageName + ".vue", componentName, true),
     InsertItemToArray(RouterPath(cwd), data.route),
     InsertItemToArray(NavigationModulePath(cwd), data.navigation)]
  }

  /** `addView`: create `src/views` if missing, render the page template
      keeping every extension, then make the source edits; nothing else. */
  function AddViewPlan(casing: Casing, pageName: string, options: Option<ViewOptions>, st: ProjectState)
    : (r: seq<Action>)
    ensures |r| == if st.viewsDirExists then 4 else 5
    ensures !st.viewsDirExists ==> r[0] == MakeDirectory(ViewsPath(st.cwd))
    ensures r[|r| - 4] == AddPageToApp(pageName, ViewsPath(st.cwd), st.templateRoot + ["page"], KeepExtension)
    ensures r[|r| - 3..] == ViewEdits(casing, pageName, options, st.cwd)
    ensures MakeDirectory(ViewsPath(st.cwd)) in r <==> !st.viewsDirExists
    ensures AddPageToApp(pageName, ViewsPath(st.cwd), st.templateRoot + ["page"], KeepExtension) in r
    ensures SourceEdits(r) == ViewEdits(casing, pageName, options, st.cwd)
  {
    var setup := if st.viewsDirExists then [] else [MakeDirectory(ViewsPath(st.cwd))];
    var page := AddPageToApp(pageName, ViewsPath(st.cwd), st.templateRoot + ["page"], KeepExtension);
    var edits := ViewEdits(casing, pageName, options, st.cwd);
    PlanWithOptionalStep(!st.viewsDirExists, MakeDirectory(ViewsPath(st.cwd)), page, edits);
    Plan(setup, page, edits)
  }

  /** `add view` edits the source exactly three times: the router gets a
      default import of `./views/<pageName>.vue` bound to the class-cased
      name, and a route record; the navigation module gets a navigation
      record whose icon is `'folder'` unless a truthy icon is given. Page
      files keep their extensions. */
  lemma AddViewEditsExactly(casing: Casing, pageName: string, options: Option<ViewOptions>, st: ProjectState)
    ensures var componentName := casing.classify(pageName);
            var icon := if options.Some? && Truthy(options.value.icon) then options.value.icon.value else "folder";
            SourceEdits(AddViewPlan(casing, pageName, options, st)) ==
              [InsertImport(st.cwd + ["src", "router.js"], "./views/" + pageName + ".vue", componentName, true),
               InsertItemToArray(st.cwd + ["src", "router.js"],
                                 NavigationFragments(casing, pageName, componentName, icon).route),
               InsertItemToArray(st.cwd + ["src", "app-navigation.js"], NavigationRecord(casing, pageName, icon))]
    ensures forall e :: ApplyExtensionPolicy(KeepExtension, e) == e
  {
  }
}
