/**
  Path normalisation applied at the breakpoint store's boundary: on Windows
  forward slashes become backslashes and the path is lower-cased; elsewhere
  backslashes become forward slashes.
 */
module Paths {
  import opened Text

  function NormalizeChar(isWindows: bool, c: char): char {
    if isWindows then LowerAscii(if c == '/' then '\\' else c)
    else if c == '\\' then '/' else c
  }

  /** `normalizePathAndCasing`. */
  function Normalize(isWindows: bool, path: string): (r: string)
    ensures |r| == |path|
    ensures isWindows ==> '/' !in r && forall i :: 0 <= i < |r| ==> !IsUpperAscii(r[i])
    ensures !isWindows ==> '\\' !in r
    ensures forall i :: 0 <= i < |r| && path[i] != '/' && path[i] != '\\' && !IsUpperAscii(path[i]) ==> r[i] == path[i]
    ensures !isWindows ==> forall i :: 0 <= i < |r| && path[i] != '\\' ==> r[i] == path[i]
    ensures !isWindows ==> forall i :: 0 <= i < |r| && path[i] == '\\' ==> r[i] == '/'
    ensures isWindows ==> forall i :: 0 <= i < |r| && path[i] == '/' ==> r[i] == '\\'
    ensures isWindows ==> forall i :: 0 <= i < |r| && path[i] == '\\' ==> r[i] == '\\'
    ensures isWindows ==> forall i :: 0 <= i < |r| && IsUpperAscii(path[i]) ==> r[i] as int == path[i] as int + 32
  {
    seq(|path|, i requires 0 <= i < |path| => NormalizeChar(isWindows, path[i]))
  }

  /** A path already in the store's canonical form. */
  predicate IsNormal(isWindows: bool, path: string) {
    if isWindows then '/' !in path && forall i :: 0 <= i < |path| ==> !IsUpperAscii(path[i])
    else '\\' !in path
  }

  /** Normalisation yields canonical paths, and canonical paths are exactly its fixed points. */
  lemma NormalFixedPoints(isWindows: bool, path: string)
    ensures IsNormal(isWindows, Normalize(isWindows, path))
    ensures IsNormal(isWindows, path) <==> Normalize(isWindows, path) == path
  {
    var r := Normalize(isWindows, path);
    if IsNormal(isWindows, path) {
      assert forall i :: 0 <= i < |path| ==> r[i] == path[i];
    }
    if r == path {
      assert IsNormal(isWindows, r);
    }
  }

  /** Normalising twice is normalising once. */
  lemma NormalizeIdempotent(isWindows: bool, path: string)
    ensures Normalize(isWindows, Normalize(isWindows, path)) == Normalize(isWindows, path)
  {
    NormalFixedPoints(isWindows, path);
    NormalFixedPoints(isWindows, Normalize(isWindows, path));
  }
}
