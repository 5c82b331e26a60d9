/** Values shared by every part of the comparer: optional results, bytes,
    digests, and the two ways a list of path components becomes a path string. */
module Common {

  /** A scan or a lookup that may fail; `None` stands for the exception that
      aborts the whole operation. */
  datatype Option<T> = None | Some(value: T)

  newtype Byte = b: int | 0 <= b < 256

  type Bytes = seq<Byte>

  /** A hex digest as returned by `hexdigest()`. */
  type Digest = string

  /** `str(Path(n1) / n2 / ... / nk)`: the names joined by "/". A relative
      root of `Path('.')` contributes nothing, so one name gives the name
      itself. */
  function Join(names: seq<string>): string
  {
    if |names| == 0 then ""
    else if |names| == 1 then names[0]
    else Join(names[..|names| - 1]) + "/" + names[|names| - 1]
  }

  /** The path the remote walk has reached below `base` after descending
      through `names`: each level appends "/" and one name. */
  function Under(base: string, names: seq<string>): string
  {
    if names == [] then base else base + "/" + Join(names)
  }

  /** Appending one name to the walk adds exactly "/" + name to the path. */
  lemma UnderStep(base: string, names: seq<string>, name: string)
    ensures Under(base, names + [name]) == Under(base, names) + "/" + name
  {
    var ns := names + [name];
    assert ns[..|ns| - 1] == names;
    if names != [] {
      assert Join(ns) == Join(names) + "/" + name;
    }
  }
}
