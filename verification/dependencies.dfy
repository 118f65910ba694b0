/** Dependency entries as the orchestrators hand them to the package.json
    utility: `{ name, version, dev }`, where an absent `dev` is `false`. */
module Dependencies {
  import opened JsText

  datatype Dependency = Dependency(name: string, version: string, dev: bool)

  /** `dependencies.map(d => d.name)`. */
  function Names(deps: seq<Dependency>): (r: seq<string>)
    ensures |r| == |deps|
    ensures forall k :: 0 <= k < |deps| ==> r[k] == deps[k].name
  {
    seq(|deps|, k requires 0 <= k < |deps| => deps[k].name)
  }

  /** `deps[j]` is the first entry called `name`. */
  predicate FirstNamed(deps: seq<Dependency>, name: string, j: int) {
    && 0 <= j < |deps|
    && deps[j].name == name
    && forall i :: 0 <= i < j ==> deps[i].name != name
  }

  /** `dependencies[names.indexOf(name)].version = version`: the first entry
      called `name` gets the new version. With no such entry `indexOf` is -1,
      `dependencies[-1]` is `undefined` and the assignment throws. */
  function SetVersion(deps: seq<Dependency>, name: string, version: string): (r: Result<seq<Dependency>>)
    ensures r.Thrown? <==> forall j :: 0 <= j < |deps| ==> deps[j].name != name
    ensures r.Ok? ==> |r.value| == |deps|
    ensures r.Ok? ==> forall j :: 0 <= j < |deps| ==>
              r.value[j] == if FirstNamed(deps, name, j) then deps[j].(version := version) else deps[j]
  {
    var names := Names(deps);
    var k := IndexOf(names, name);
    if k < 0 then
      assert forall j :: 0 <= j < |deps| ==> names[j] != name;
      Thrown("Cannot set properties of undefined (setting 'version')")
    else
      assert forall i :: 0 <= i < k ==> names[..k][i] == names[i];
      Ok(deps[k := deps[k].(version := version)])
  }
}
