/** Optional values, and a fact about sequences. */
module Wrappers {
  datatype Option<+T> = None | Some(value: T)

  lemma {:induction false} EmptyOrInhabited<T>(xs: seq<T>)
    ensures xs == [] || exists x :: x in xs
  {
    assert xs != [] ==> xs[0] in xs;
  }
}

/** ASCII case folding and the string helpers the rewriter relies on. */
module Text {

  function LowerChar(c: char): char {
    if 'A' <= c <= 'Z' then (c as int + 32) as char else c
  }

  function UpperChar(c: char): char {
    if 'a' <= c <= 'z' then (c as int - 32) as char else c
  }

  function Lower(s: string): string {
    seq(|s|, i requires 0 <= i < |s| => LowerChar(s[i]))
  }

  function Upper(s: string): string {
    seq(|s|, i requires 0 <= i < |s| => UpperChar(s[i]))
  }

  /** True when `name` equals an entry of `names` up to letter case. */
  predicate ListedAnyCase(name: string, names: seq<string>) {
    exists i :: 0 <= i < |names| && Lower(names[i]) == Lower(name)
  }

  predicate IsSpace(c: char) {
    c == ' ' || 9 <= c as int <= 13 || 28 <= c as int <= 31
  }

  function StripLeft(s: string): string {
    if s != [] && IsSpace(s[0]) then StripLeft(s[1..]) else s
  }

  function StripRight(s: string): string {
    if s != [] && IsSpace(s[|s| - 1]) then StripRight(s[..|s| - 1]) else s
  }

  /** The string without its outer whitespace. */
  function Strip(s: string): string {
    StripRight(StripLeft(s))
  }

  /** The pieces of `s` between the commas. */
  function SplitCommas(s: string): (r: seq<string>)
    ensures r != []
  {
    if s == [] then [[]]
    else
      var rest := SplitCommas(s[1..]);
      if s[0] == ',' then [[]] + rest else [[s[0]] + rest[0]] + rest[1..]
  }
}
