/** POSIX `os.path.join` for two components. */
module Paths {
  import opened Text

  /** `os.path.join(directory, name)`: an absolute `name` replaces the
      directory; otherwise a `/` is inserted unless the directory is empty or
      already ends with one. */
  function PathJoin(directory: string, name: string): (r: string)
    ensures EndsWith(r, name)
    ensures !StartsWith(name, "/") ==> StartsWith(r, directory)
  {
    if StartsWith(name, "/") then name
    else if directory == "" || EndsWith(directory, "/") then directory + name
    else directory + "/" + name
  }
}
