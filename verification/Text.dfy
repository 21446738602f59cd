/** String helpers of the Go standard library that several components rely on. */
module Text {
  /** White space as `strings.TrimSpace` sees it. */
  predicate IsSpace(c: char) {
    var n := c as int;
    || (9 <= n <= 13) || n == 32 || n == 0x85 || n == 0xA0 || n == 0x1680
    || (0x2000 <= n <= 0x200A) || n == 0x2028 || n == 0x2029 || n == 0x202F || n == 0x205F || n == 0x3000
  }

  function TrimLeft(s: string): string {
    if s != "" && IsSpace(s[0]) then TrimLeft(s[1..]) else s
  }

  function TrimRight(s: string): string {
    if s != "" && IsSpace(s[|s| - 1]) then TrimRight(s[..|s| - 1]) else s
  }

  function TrimSpace(s: string): string { TrimRight(TrimLeft(s)) }

  predicate NoSpace(s: string) { forall i :: 0 <= i < |s| ==> !IsSpace(s[i]) }

  lemma TrimNothing(s: string)
    requires NoSpace(s)
    ensures TrimSpace(s) == s
  {
  }

  /** Trailing white space goes, and nothing else. */
  lemma {:induction false} TrimTail(s: string, tail: string)
    requires s != "" && NoSpace(s)
    requires forall i :: 0 <= i < |tail| ==> IsSpace(tail[i])
    ensures TrimSpace(s + tail) == s
  {
    assert TrimLeft(s + tail) == s + tail;
    if tail == "" {
      assert s + tail == s;
    } else {
      assert (s + tail)[..|s + tail| - 1] == s + tail[..|tail| - 1];
      assert TrimLeft(s + tail[..|tail| - 1]) == s + tail[..|tail| - 1];
      TrimTail(s, tail[..|tail| - 1]);
    }
  }
}
