/** The object-literal source text the orchestrators splice into route and
    navigation arrays. Every fragment is a record: a newline, the indentation,
    then `{`, one `key: value` line per field one level deeper, separated by
    `,\n`, and `}` back at the indentation. */
module Fragments {

  datatype Field = Field(key: string, value: string)

  /** `s` between two `q` characters, as in `'/home'` or `"home"`. */
  function Quoted(q: char, s: string): (r: string)
    ensures |r| == |s| + 2 && r[0] == q && r[|r| - 1] == q && r[1..|r| - 1] == s
  {
    [q] + s + [q]
  }

  /** One `key: value` line at `indent`. */
  function Line(indent: string, field: Field): string {
    indent + field.key + ": " + field.value
  }

  /** The field lines, each at `indent`, joined by `,\n`. */
  function Lines(indent: string, fields: seq<Field>): string
    decreases |fields|
  {
    if |fields| == 0 then ""
    else if |fields| == 1 then Line(indent, fields[0])
    else Line(indent, fields[0]) + ",\n" + Lines(indent, fields[1..])
  }

  /** `{`, the fields one level (two spaces) deeper than `indent`, `}`. */
  function Block(indent: string, fields: seq<Field>): string {
    "{\n" + Lines(indent + "  ", fields) + "\n" + indent + "}"
  }

  /** A record on a line of its own, as it is inserted into an array. */
  function Record(indent: string, fields: seq<Field>): string {
    "\n" + indent + Block(indent, fields)
  }

  /** The closing line of a record at `indent`, as one piece. */
  lemma CloseRecord(x: string, indent: string)
    ensures x + "\n" + indent + "}" == x + ("\n" + indent + "}")
  {
  }

  lemma RecordOfTwo(indent: string, a: Field, b: Field)
    ensures Record(indent, [a, b]) ==
              "\n" + indent + "{\n" + Line(indent + "  ", a) + ",\n" + Line(indent + "  ", b) + "\n" + indent + "}"
  {
    BlockOfTwo(indent, a, b);
  }

  lemma RecordOfThree(indent: string, a: Field, b: Field, c: Field)
    ensures Record(indent, [a, b, c]) ==
              "\n" + indent + "{\n" + Line(indent + "  ", a) + ",\n" + Line(indent + "  ", b)
              + ",\n" + Line(indent + "  ", c) + "\n" + indent + "}"
  {
    var d := indent + "  ";
    assert [a, b, c][1..] == [b, c];
    assert [b, c][1..] == [c];
    assert Lines(d, [c]) == Line(d, c);
    assert Lines(d, [b, c]) == Line(d, b) + ",\n" + Line(d, c);
    var l := Lines(d, [a, b, c]);
    assert l == Line(d, a) + ",\n" + (Line(d, b) + ",\n" + Line(d, c));
    var blk := Block(indent, [a, b, c]);
    assert blk == "{\n" + l + "\n" + indent + "}";
  }

  lemma BlockOfTwo(indent: string, a: Field, b: Field)
    ensures Block(indent, [a, b]) ==
              "{\n" + Line(indent + "  ", a) + ",\n" + Line(indent + "  ", b) + "\n" + indent + "}"
  {
    var d := indent + "  ";
    assert [a, b][1..] == [b];
    assert Lines(d, [b]) == Line(d, b);
    var l := Lines(d, [a, b]);
    assert l == Line(d, a) + ",\n" + Line(d, b);
  }

  lemma RecordOfFour(indent: string, a: Field, b: Field, c: Field, d: Field)
    ensures Record(indent, [a, b, c, d]) ==
              "\n" + indent + "{\n" + Line(indent + "  ", a) + ",\n" + Line(indent + "  ", b)
              + ",\n" + Line(indent + "  ", c) + ",\n" + Line(indent + "  ", d) + "\n" + indent + "}"
  {
    var ind := indent + "  ";
    assert [a, b, c, d][1..] == [b, c, d];
    assert [b, c, d][1..] == [c, d];
    assert [c, d][1..] == [d];
    assert Lines(ind, [d]) == Line(ind, d);
    assert Lines(ind, [c, d]) == Line(ind, c) + ",\n" + Line(ind, d);
    assert Lines(ind, [b, c, d]) == Line(ind, b) + ",\n" + (Line(ind, c) + ",\n" + Line(ind, d));
    var l := Lines(ind, [a, b, c, d]);
    assert l == Line(ind, a) + ",\n" + (Line(ind, b) + ",\n" + (Line(ind, c) + ",\n" + Line(ind, d)));
    var blk := Block(indent, [a, b, c, d]);
    assert blk == "{\n" + l + "\n" + indent + "}";
  }
}

/** What the orchestrators hand to code whose implementation is not part of
    this model: the string-casing helpers, and the calls into the template,
    module, file-content and package.json utilities, recorded as `Action`s. */
module Collaborators {
  import opened JsText
  import opened Dependencies

  /** `stringUtils.classify`, `dasherize` and `humanize`; nothing is assumed
      about them. */
  datatype Casing = Casing(classify: string -> string, dasherize: string -> string,
                           humanize: string -> string)

  /** A file-system path as the segments given to `path.join`. */
  type Path = seq<string>

  /** The `getCorrectExtension` callback handed to `addPageToApp`. */
  datatype ExtensionPolicy = KeepExtension | TsxBecomes(extension: string)

  function ApplyExtensionPolicy(policy: ExtensionPolicy, fileExtension: string): (r: string)
    ensures policy.KeepExtension? ==> r == fileExtension
    ensures fileExtension != ".tsx" ==> r == fileExtension
  {
    match policy
    case KeepExtension => fileExtension
    case TsxBecomes(ext) => if fileExtension == ".tsx" then ext else fileExtension
  }

  /** The options the application template is rendered with. */
  datatype TemplateOptions = TemplateOptions(project: string, layout: string,
                                             isTypeScript: bool, empty: bool)

  /** One step of a `create` or `add view` run. */
  datatype Action =
    | RunCommand(command: string, args: seq<string>)
    | RewriteIndexHtml(appPath: Path, title: string)
    | AddDependencies(appPath: Path, deps: seq<Dependency>)
    | AddTemplate(appPath: Path, appName: string, options: TemplateOptions)
    | MakeDirectory(dir: Path)
    | WriteFile(file: Path, content: string)
    | AddPageToApp(pageName: string, pageDir: Path, templateDir: Path, extension: ExtensionPolicy)
    | InsertExport(file: Path, name: string, modulePath: string, suffix: string)
    | InsertImport(file: Path, modulePath: string, binding: string, isDefault: bool)
    | InsertItemToArray(file: Path, item: string)

  /** An edit of an existing source file through the module and file-content
      utilities. */
  predicate IsSourceEdit(a: Action) {
    a.InsertExport? || a.InsertImport? || a.InsertItemToArray?
  }

  /** The source edits of a plan, in order. */
  function SourceEdits(plan: seq<Action>): (r: seq<Action>)
    ensures forall a :: a in r ==> a in plan && IsSourceEdit(a)
    ensures forall a :: a in plan && IsSourceEdit(a) ==> a in r
    ensures |r| <= |plan|
  {
    if |plan| == 0 then []
    else (if IsSourceEdit(plan[0]) then [plan[0]] else []) + SourceEdits(plan[1..])
  }

  lemma {:induction false} SourceEditsAppend(a: seq<Action>, b: seq<Action>)
    ensures SourceEdits(a + b) == SourceEdits(a) + SourceEdits(b)
    decreases |a|
  {
    if |a| > 0 {
      assert (a + b)[1..] == a[1..] + b;
      SourceEditsAppend(a[1..], b);
    } else {
      assert a + b == b;
    }
  }

  lemma {:induction false} SourceEditsAll(plan: seq<Action>)
    requires forall k :: 0 <= k < |plan| ==> IsSourceEdit(plan[k])
    ensures SourceEdits(plan) == plan
    decreases |plan|
  {
    if |plan| > 0 {
      SourceEditsAll(plan[1..]);
    }
  }

  lemma SourceEditsNone(plan: seq<Action>)
    requires forall k :: 0 <= k < |plan| ==> !IsSourceEdit(plan[k])
    ensures SourceEdits(plan) == []
  {
  }

  /** A plan that prepares, renders a page, then edits: the preparation
      comes first, the page next, and its source edits are the edits. */
  function Plan(setup: seq<Action>, page: Action, edits: seq<Action>): (r: seq<Action>)
    requires forall k :: 0 <= k < |setup| ==> !IsSourceEdit(setup[k])
    requires !IsSourceEdit(page)
    requires forall k :: 0 <= k < |edits| ==> IsSourceEdit(edits[k])
    ensures |r| == |setup| + 1 + |edits|
    ensures r[..|setup|] == setup && r[|setup|] == page && r[|setup| + 1..] == edits
    ensures SourceEdits(r) == edits
  {
    var prefix := setup + [page];
    assert SourceEdits(prefix + edits) == edits by {
      assert forall k :: 0 <= k < |prefix| ==> !IsSourceEdit(prefix[k]) by {
        forall k | 0 <= k < |prefix| ensures !IsSourceEdit(prefix[k]) {
          if k < |setup| { assert prefix[k] == setup[k]; }
        }
      }
      SourceEditsAppend(prefix, edits);
      SourceEditsNone(prefix);
      SourceEditsAll(edits);
    }
    assert (prefix + edits)[..|setup|] == setup;
    assert (prefix + edits)[|setup| + 1..] == edits;
    prefix + edits
  }

  /** Counted from the end, a plan is the page step followed by the edits;
      counted from the start, it opens with the first setup step. */
  lemma PlanShape(setup: seq<Action>, page: Action, edits: seq<Action>)
    requires forall k :: 0 <= k < |setup| ==> !IsSourceEdit(setup[k])
    requires !IsSourceEdit(page)
    requires forall k :: 0 <= k < |edits| ==> IsSourceEdit(edits[k])
    ensures var r := Plan(setup, page, edits);
            && r[|r| - |edits| - 1] == page && r[|r| - |edits|..] == edits
            && (|setup| > 0 ==> r[0] == setup[0])
  {
    var r := Plan(setup, page, edits);
    assert |r| - |edits| - 1 == |setup|;
    if |setup| > 0 { assert r[0] == r[..|setup|][0]; }
  }

  /** A plan whose setup is one optional step `step`: the step opens the plan
      exactly when it is there, and the page step and the edits close it. */
  lemma PlanWithOptionalStep(present: bool, step: Action, page: Action, edits: seq<Action>)
    requires !IsSourceEdit(step) && !IsSourceEdit(page) && step != page
    requires forall k :: 0 <= k < |edits| ==> IsSourceEdit(edits[k])
    ensures var r := Plan(if present then [step] else [], page, edits);
            && |r| == (if present then 2 else 1) + |edits|
            && (present ==> r[0] == step)
            && r[|r| - |edits| - 1] == page && r[|r| - |edits|..] == edits
            && (step in r <==> present)
            && page in r
  {
    var setup := if present then [step] else [];
    PlanShape(setup, page, edits);
    PlanMembers(setup, page, edits, step);
  }

  /** An action that is neither a source edit nor the page step is in a plan
      iff it is one of the setup steps. */
  lemma PlanMembers(setup: seq<Action>, page: Action, edits: seq<Action>, a: Action)
    requires forall k :: 0 <= k < |setup| ==> !IsSourceEdit(setup[k])
    requires !IsSourceEdit(page)
    requires forall k :: 0 <= k < |edits| ==> IsSourceEdit(edits[k])
    requires !IsSourceEdit(a) && a != page
    ensures a in Plan(setup, page, edits) <==> a in setup
  {
    var r := Plan(setup, page, edits);
    assert r == setup + [page] + edits;
    assert a !in edits by {
      forall k | 0 <= k < |edits| ensures edits[k] != a {
        assert IsSourceEdit(edits[k]);
      }
    }
  }
}
