/** Error taxonomy of the container engine and the result types built on it.
    The variants mirror the kinds of `ContainerError`; payloads that are foreign
    error values (an I/O error, a JSON error) are dropped, every string payload kept. */
module Errors {

  datatype ContainerError =
    | InvalidStructure(message: string)
    | MissingDefaultScript
    | ScriptNotFound(container: string, script: string)
    | InvalidManifest(message: string)
    | ManifestValidation(message: string)
    | InvalidDependency(package: string, reason: string)
    | PackageNotFound(package: string)
    | CircularDependency(chain: string)
    | InvalidVersion(version: string)
    | VersionConflict(conflict: string)
    | PermissionDenied(operation: string)
    | ContainerExists(name: string)
    | ContainerNotFound(name: string)
    | IoError(path: string)
    | JsonError
    | InvalidPath(path: string, reason: string)
    | UnsupportedType(containerType: string)
    | Runtime(message: string)

  /** `ContainerResult<T>`: usable with `:-` like Rust's `?`. */
  datatype Result<+T> = Ok(value: T) | Err(error: ContainerError) {
    predicate IsFailure() { Err? }

    function PropagateFailure<U>(): Result<U>
      requires Err?
    {
      Err(error)
    }

    function Extract(): T
      requires Ok?
    {
      value
    }
  }

  datatype Option<+T> = None | Some(value: T)

  /** A check run over a list with `?` on each item: the first item whose check
      fails decides the error, and every earlier item passed. */
  function FirstError<T>(check: T -> Result<()>, items: seq<T>): (r: Result<()>)
    ensures r.Ok? <==> forall i :: 0 <= i < |items| ==> check(items[i]).Ok?
    ensures r.Err? ==> exists i :: (0 <= i < |items| && check(items[i]) == r
      && forall j :: 0 <= j < i ==> check(items[j]).Ok?)
  {
    if |items| == 0 then Ok(())
    else
      var head := check(items[0]);
      if head.Err? then head
      else
        var rest := FirstError(check, items[1..]);
        assert forall i :: 1 <= i < |items| ==> items[i] == items[1..][i - 1];
        if rest.Ok? then rest
        else
          var i :| 0 <= i < |items[1..]| && check(items[1..][i]) == rest
            && forall j :: 0 <= j < i ==> check(items[1..][j]).Ok?;
          assert check(items[i + 1]) == rest;
          rest
  }

  /** A failing first item decides at once. */
  lemma FirstErrorHead<T>(check: T -> Result<()>, items: seq<T>)
    requires |items| > 0 && check(items[0]).Err?
    ensures FirstError(check, items) == check(items[0])
  {
  }

  /** Appending an item keeps an earlier failure, and after a passing list the new
      item's own check decides. */
  lemma {:induction false} FirstErrorAppend<T>(check: T -> Result<()>, items: seq<T>, x: T)
    ensures FirstError(check, items).Err? ==> FirstError(check, items + [x]) == FirstError(check, items)
    ensures FirstError(check, items).Ok? ==> FirstError(check, items + [x]) == check(x)
    decreases |items|
  {
    if |items| > 0 {
      assert (items + [x])[0] == items[0];
      assert (items + [x])[1..] == items[1..] + [x];
      FirstErrorAppend(check, items[1..], x);
    } else {
      assert items + [x] == [x];
      assert [x][1..] == [];
      var c := check(x);
      if c.Ok? {
        var u: () := c.value;
        assert u == ();
        assert c == Ok(u);
      }
    }
  }
}
