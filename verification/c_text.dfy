/** How C reads a sequence as a NUL-terminated string: `printf("%s")` and
    `json_tokener_parse` stop at the first NUL element. */
module CText {

  /** One byte of C memory. */
  newtype byte = x: int | 0 <= x < 256

  /** The prefix of `s` before the first `nul`, or all of `s` when it holds none. */
  function UpToNul<T(==)>(s: seq<T>, nul: T): (r: seq<T>)
    ensures r <= s
    ensures nul !in r
    ensures |r| < |s| ==> s[|r|] == nul
    ensures nul !in s ==> r == s
  {
    if |s| == 0 || s[0] == nul then [] else [s[0]] + UpToNul(s[1..], nul)
  }

  /** What `printf("%s", ...)` shows of a json-c string, which may carry an embedded NUL. */
  function Shown(s: string): string
  {
    UpToNul(s, '\0')
  }

  /** A terminator placed right after `s` makes the C view of `s + [nul] + rest`
      exactly `s`, whatever follows, as long as `s` itself holds no terminator. */
  lemma {:induction false} TerminatedView<T>(s: seq<T>, nul: T, rest: seq<T>)
    requires nul !in s
    ensures UpToNul(s + [nul] + rest, nul) == s
  {
    if |s| > 0 {
      assert (s + [nul] + rest)[1..] == s[1..] + [nul] + rest;
      TerminatedView(s[1..], nul, rest);
    }
  }
}
