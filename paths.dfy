/** File-system paths as sequences of components, and the I/O failures the
    pipeline's `?` operators propagate. */
module Paths {
  import opened Wrappers

  /** A path, component by component (`PathBuf` with its separators removed). */
  type Path = seq<string>

  /** `PathBuf::join` with a single component. */
  function Join(p: Path, name: string): (r: Path)
    ensures Pop(r) == p && FileName(r) == Some(name)
  {
    p + [name]
  }

  /** `PathBuf::pop`: drops the last component; a path without one is left as it is. */
  function Pop(p: Path): (r: Path)
    ensures p != [] ==> p == r + [p[|p| - 1]]
    ensures p == [] ==> r == []
  {
    if p == [] then [] else p[..|p| - 1]
  }

  /** `Path::file_name`: the last component, if there is one. */
  function FileName(p: Path): Option<string> {
    if p == [] then None else Some(p[|p| - 1])
  }

  /** What a failed file-system call reports (`std::io::Error` carries the
      kind, not the path). */
  datatype IoError =
    | NotFound        // read_dir or read_to_string on a missing path
    | AlreadyExists   // create_dir_all where a regular file stands
}
