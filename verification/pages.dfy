/** What the React and Vue orchestrators share, written once: the icon default
    of `add view`, the navigation-array record (the two sources build it with
    the same template literal) and the `index.html` rewrite, which differs only
    in the `<title>` pattern. */
module Pages {
  import opened JsText
  import opened Fragments
  import opened Collaborators
  import opened TitlePattern

  /** The `options` of `add view`; `icon` is `undefined` when not given. */
  datatype ViewOptions = ViewOptions(icon: Option<string>)

  /** `options && options.icon || 'folder'`. */
  function ResolveIcon(options: Option<ViewOptions>): (r: string)
    ensures options.Some? && Truthy(options.value.icon) ==> r == options.value.icon.value
    ensures !(options.Some? && Truthy(options.value.icon)) ==> r == "folder"
  {
    match options
    case None => "folder"
    case Some(o) => if Truthy(o.icon) then o.icon.value else "folder"
  }

  /** What `getNavigationData` returns: the route record and the navigation
      record, as source text. */
  datatype NavigationData = NavigationData(route: string, navigation: string)

  /** `'/' + dasherize(viewName)`, the path both the route and the navigation
      entry point at. */
  function PagePath(casing: Casing, viewName: string): string {
    "/" + casing.dasherize(viewName)
  }

  /** The `navigation` fragment of `getNavigationData`: on a line of its own
      and with no leading comma, the humanized label, the page path and the
      icon, one single-quoted field per line. */
  function NavigationRecord(casing: Casing, viewName: string, icon: string): (r: string)
    ensures r == "\n  {\n"
                 + ("    text: '" + casing.humanize(viewName) + "'") + ",\n"
                 + ("    path: '" + PagePath(casing, viewName) + "'") + ",\n"
                 + ("    icon: '" + icon + "'") + "\n  }"
    ensures r[0] == '\n'
  {
    var h := casing.humanize(viewName);
    var p := PagePath(casing, viewName);
    var text := Field("text", Quoted('\'', h));
    var path := Field("path", Quoted('\'', p));
    var iconField := Field("icon", Quoted('\'', icon));
    RecordOfThree("  ", text, path, iconField);
    TextLine(h);
    PathLine(p);
    IconLine(icon);
    var r := Record("  ", [text, path, iconField]);
    assert r == "\n" + "  " + "{\n" + ("    text: '" + h + "'") + ",\n" + ("    path: '" + p + "'")
                + ",\n" + ("    icon: '" + icon + "'") + "\n" + "  " + "}";
    assert "\n" + "  " + "{\n" == "\n  {\n";
    assert "\n" + "  " + "}" == "\n  }";
    CloseRecord("\n  {\n" + ("    text: '" + h + "'") + ",\n" + ("    path: '" + p + "'")
                + ",\n" + ("    icon: '" + icon + "'"), "  ");
    r
  }

  lemma TextLine(h: string)
    ensures Line("  " + "  ", Field("text", Quoted('\'', h))) == "    text: '" + h + "'"
  {
  }

  lemma PathLine(p: string)
    ensures Line("  " + "  ", Field("path", Quoted('\'', p))) == "    path: '" + p + "'"
  {
  }

  lemma IconLine(icon: string)
    ensures Line("  " + "  ", Field("icon", Quoted('\'', icon))) == "    icon: '" + icon + "'"
  {
  }

  const BodyTag: string := "<body>"
  const ViewportBodyTag: string := "<body class=\"dx-viewport\">"

  /** The first `replace` of `modifyIndexHtml`: the title element becomes
      `<title>appName</title>`. */
  function TitleStep(rule: Rule, html: string, appName: string): string {
    ReplaceTitle(rule, html, Open + appName + Close)
  }

  /** `modifyIndexHtml` on the text of `index.html`. */
  function ModifyIndexHtml(rule: Rule, html: string, appName: string): (r: string)
    ensures FindTitle(rule, html, 0).None? ==> r == ReplaceFirst(html, BodyTag, ViewportBodyTag)
    ensures FindTitle(rule, html, 0).None? && Find(html, BodyTag, 0).None? ==> r == html
  {
    ReplaceFirst(TitleStep(rule, html, appName), BodyTag, ViewportBodyTag)
  }

  /** No title element starts before `i`. */
  predicate NoTitleBefore(rule: Rule, s: string, i: int) {
    forall j, f :: 0 <= j < i && j <= f <= |s| ==> !IsTitleElement(rule, s[j..f])
  }

  lemma ReplacementNoDollar(appName: string)
    requires NoDollar(appName)
    ensures NoDollar(Open + appName + Close)
  {
    var replacement := Open + appName + Close;
    forall k | 0 <= k < |replacement| ensures replacement[k] != '$' {
      if k < |Open| { assert replacement[k] == Open[k]; }
      else if k < |Open| + |appName| { assert replacement[k] == appName[k - |Open|]; }
      else { assert replacement[k] == Close[k - |Open| - |appName|]; }
    }
  }

  /** The regex search finds exactly the leftmost title element. */
  lemma FindsLeftmostTitle(rule: Rule, html: string, i: nat, e: nat)
    requires i <= e <= |html| && IsTitleElement(rule, html[i..e])
    requires NoTitleBefore(rule, html, i)
    ensures FindTitle(rule, html, 0) == Some((i, e))
  {
    MatchEndComplete(rule, html, i, e);
  }

  /** For an app name without `$`, the leftmost title element `html[i..e]` is
      replaced by `<title>appName</title>` and nothing else changes. */
  lemma TitleRewrite(rule: Rule, html: string, appName: string, i: nat, e: nat)
    requires NoDollar(appName)
    requires i <= e <= |html| && IsTitleElement(rule, html[i..e])
    requires NoTitleBefore(rule, html, i)
    ensures TitleStep(rule, html, appName) == html[..i] + Open + appName + Close + html[e..]
  {
    var replacement := Open + appName + Close;
    assert TitleStep(rule, html, appName) == html[..i] + replacement + html[e..] by {
      ReplacementNoDollar(appName);
      FindsLeftmostTitle(rule, html, i, e);
      ReplaceTitleLiteral(rule, html, replacement);
    }
    Regroup(html[..i], appName, html[e..]);
  }

  /** The splice the title step builds, regrouped into the form `TitleRewrite`
      states. */
  lemma Regroup(before: string, appName: string, after: string)
    ensures before + (Open + appName + Close) + after == before + Open + appName + Close + after
  {
  }

  /** The app name `$&` stands for the matched text, so the leftmost title
      element `html[i..e]` ends up nested inside the new one. */
  lemma TitleOfMatch(rule: Rule, html: string, i: nat, e: nat)
    requires i <= e <= |html| && IsTitleElement(rule, html[i..e])
    requires NoTitleBefore(rule, html, i)
    ensures TitleStep(rule, html, "$&") == html[..i] + Open + html[i..e] + Close + html[e..]
  {
    FindsLeftmostTitle(rule, html, i, e);
    MatchInTitle(html[i..e], html[..i], html[e..], Captures(rule, html, i, e));
    Regroup(html[..i], html[i..e], html[e..]);
  }

  /** The replacement `<title>$&</title>` expands to the matched text wrapped
      in a new title element. */
  lemma MatchInTitle(matched: string, before: string, after: string, captures: seq<string>)
    ensures Substitute(Open + "$&" + Close, matched, before, after, captures) == Open + matched + Close
  {
    assert NoDollar(Open) && NoDollar(Close);
    assert Open + "$&" + Close == Open + ("$&" + Close);
    SubstitutePrefix(Open, "$&" + Close, matched, before, after, captures);
    SubstituteEscapes(Close, matched, before, after, captures);
  }

  /** Without a title element the title step changes nothing. */
  lemma TitleUnchanged(rule: Rule, html: string, appName: string)
    requires NoTitleBefore(rule, html, |html| + 1)
    ensures TitleStep(rule, html, appName) == html
  {
    FindTitleLeftmost(rule, html);
  }

  /** After the title step `t`, the first `<body>`, at `b`, gets the
      `dx-viewport` class and nothing else changes. */
  lemma BodyRewrite(rule: Rule, html: string, appName: string, b: nat)
    requires OccursAt(TitleStep(rule, html, appName), BodyTag, b)
    requires forall j :: 0 <= j < b ==> !OccursAt(TitleStep(rule, html, appName), BodyTag, j)
    ensures var t := TitleStep(rule, html, appName);
            ModifyIndexHtml(rule, html, appName) == t[..b] + ViewportBodyTag + t[b + |BodyTag|..]
  {
    ViewportBodyTagNoDollar();
    ReplaceFirstAt(TitleStep(rule, html, appName), BodyTag, ViewportBodyTag, b);
  }

  /** Once the title step has produced `t`, `modifyIndexHtml` gives the first
      `<body>` of `t` the `dx-viewport` class, or returns `t` when it has none. */
  lemma BodyStepAfter(rule: Rule, html: string, appName: string, t: string)
    requires TitleStep(rule, html, appName) == t
    ensures Find(t, BodyTag, 0).None? ==> ModifyIndexHtml(rule, html, appName) == t
    ensures Find(t, BodyTag, 0).Some? ==>
              var b := Find(t, BodyTag, 0).value;
              ModifyIndexHtml(rule, html, appName) == t[..b] + ViewportBodyTag + t[b + |BodyTag|..]
  {
    ViewportBodyTagNoDollar();
    ReplaceFirstLiteral(t, BodyTag, ViewportBodyTag);
  }

  lemma ViewportBodyTagNoDollar()
    ensures NoDollar(ViewportBodyTag)
  {
  }

  /** Without `<body>` after the title step, the body step changes nothing. */
  lemma BodyUnchanged(rule: Rule, html: string, appName: string)
    requires forall j :: 0 <= j <= |TitleStep(rule, html, appName)| ==> !OccursAt(TitleStep(rule, html, appName), BodyTag, j)
    ensures ModifyIndexHtml(rule, html, appName) == TitleStep(rule, html, appName)
  {
  }
}
