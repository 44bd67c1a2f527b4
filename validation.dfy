/**
 * The checks the zod schemas chain on a field: `min`/`max` on a string's length or on a
 * number. A failed check contributes one issue carrying the field's path and the
 * message the schema gives; zod collects the issues of every check of every field.
 */
module Validation {
  datatype Issue = Issue(path: string, message: string)

  /** Every issue is reported against `path`. */
  predicate AllAt(issues: seq<Issue>, path: string)
  {
    forall x :: x in issues ==> x.path == path
  }

  /** `.min(lo, loMessage).max(hi, hiMessage)` on a number, bounds inclusive. */
  function RangeIssues(path: string, v: int, lo: int, loMessage: string, hi: int, hiMessage: string): (r: seq<Issue>)
    ensures r == [] <==> lo <= v <= hi
    ensures AllAt(r, path)
    ensures v < lo ==> Issue(path, loMessage) in r
    ensures v > hi ==> Issue(path, hiMessage) in r
    ensures |r| <= 2
  {
    (if v < lo then [Issue(path, loMessage)] else []) + (if v > hi then [Issue(path, hiMessage)] else [])
  }

  /** `.min(lo, loMessage)` on a number. */
  function AtLeastIssues(path: string, v: int, lo: int, loMessage: string): (r: seq<Issue>)
    ensures r == [] <==> lo <= v
    ensures v < lo ==> r == [Issue(path, loMessage)]
    ensures AllAt(r, path)
  {
    if v < lo then [Issue(path, loMessage)] else []
  }

  /** `.min(lo, loMessage).max(hi, hiMessage)` on a string, measured in characters. */
  function LengthIssues(path: string, s: string, lo: int, loMessage: string, hi: int, hiMessage: string): (r: seq<Issue>)
    ensures r == [] <==> lo <= |s| <= hi
    ensures AllAt(r, path)
  {
    RangeIssues(path, |s|, lo, loMessage, hi, hiMessage)
  }

  /** A single `.min(lo, loMessage)` on a string. */
  function MinLengthIssues(path: string, s: string, lo: int, loMessage: string): (r: seq<Issue>)
    ensures r == [] <==> lo <= |s|
    ensures AllAt(r, path)
  {
    AtLeastIssues(path, |s|, lo, loMessage)
  }

  /** The paths issues are reported against. */
  function Paths(issues: seq<Issue>): set<string>
  {
    set i | 0 <= i < |issues| :: issues[i].path
  }
}
