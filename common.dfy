/** Values shared by every module: optional values, file paths and the two
    Python built-ins the path names are made of (os.path.join and int()). */
module Common {
  import Strings

  datatype Option<T> = None | Some(value: T) {
    /** dict.get(key, default) once the lookup has been made. */
    function GetOr(default: T): T {
      if Some? then value else default
    }
  }

  type Path = string

  /** os.path.join(dir, name) for two components (POSIX): an absolute `name`
      replaces `dir`; otherwise one '/' is put between them unless `dir` is
      empty or already ends with one. */
  function PathJoin(dir: Path, name: string): (p: Path)
    ensures !Strings.StartsWith(name, "/") ==> p == JoinPrefix(dir) + name
    ensures Strings.StartsWith(name, "/") ==> p == name
  {
    if Strings.StartsWith(name, "/") then name
    else if dir == "" || dir[|dir| - 1] == '/' then dir + name
    else dir + "/" + name
  }

  /** What PathJoin puts in front of a relative name. */
  function JoinPrefix(dir: Path): string {
    if dir == "" || dir[|dir| - 1] == '/' then dir else dir + "/"
  }

  /** Two relative names joined to the same directory give the same path only
      when they are the same name. */
  lemma {:induction false} PathJoinInjective(dir: Path, a: string, b: string)
    requires !Strings.StartsWith(a, "/") && !Strings.StartsWith(b, "/")
    ensures PathJoin(dir, a) == PathJoin(dir, b) <==> a == b
  {
    var pre := JoinPrefix(dir);
    if PathJoin(dir, a) == PathJoin(dir, b) {
      assert a == (pre + a)[|pre|..];
      assert b == (pre + b)[|pre|..];
    }
  }

  /** Python's int() on a float: truncation toward zero. */
  function Trunc(x: real): (r: int)
    ensures 0.0 <= x ==> 0 <= r && r as real <= x < r as real + 1.0
    ensures x < 0.0 ==> r <= 0 && r as real - 1.0 < x <= r as real
  {
    if x >= 0.0 then x.Floor else -((-x).Floor)
  }
}
