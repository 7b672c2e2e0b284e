/** The avatar fallback of the dashboard page (src/app/dashboard/page.tsx)
    and of the leaderboard card (src/components/dashboard/leaderboard.tsx):
    the first character of every space-separated part of the name,
    upper-cased. */
module Initials {

  /** `s.split(' ')`: the parts between single spaces, empty parts
      included; the empty string is one empty part. */
  function Split(s: string): (r: seq<string>)
    ensures |r| >= 1
  {
    if s == [] then [[]]
    else if s[0] == ' ' then [[]] + Split(s[1..])
    else
      var rest := Split(s[1..]);
      [[s[0]] + rest[0]] + rest[1..]
  }

  /** `parts.map(n => n[0]).join('')`: an empty part has no first
      character and contributes nothing. */
  function FirstChars(parts: seq<string>): string {
    if parts == [] then []
    else (if parts[0] != [] then [parts[0][0]] else []) + FirstChars(parts[1..])
  }

  /** `toUpperCase` on the ASCII letters. */
  function UpperAscii(c: char): char {
    if 'a' <= c <= 'z' then (c as int - 32) as char else c
  }

  function UpperAll(s: string): (r: string)
    ensures |r| == |s| && forall i | 0 <= i < |s| :: r[i] == UpperAscii(s[i])
  {
    if s == [] then [] else [UpperAscii(s[0])] + UpperAll(s[1..])
  }

  /** The leaderboard's `getInitials(name)`, which has no guard. The
      initials are the upper-cased first characters of the words, whatever
      the spacing: leading, trailing and repeated spaces add nothing. */
  function InitialsOf(name: string): (r: string)
    ensures r == UpperAll(WordStarts(name, true))
  {
    LaterPartsStartWords(name);
    if name != [] then
      var p := Split(name);
      assert FirstChars(p) == (if p[0] != [] then [p[0][0]] else []) + FirstChars(p[1..]);
      assert p[0] != [] <==> name[0] != ' ';
      assert p[0] != [] ==> p[0][0] == name[0];
      UpperAll(FirstChars(p))
    else
      UpperAll(FirstChars(Split(name)))
  }

  /** The dashboard's `getInitials(name)`, which returns "" for an empty
      name first. The two pages' versions agree: the early return changes
      nothing. */
  function GetInitials(name: string): (r: string)
    ensures r == InitialsOf(name)
  {
    if name == [] then [] else InitialsOf(name)
  }

  /** The characters of `s` that begin a word: not a space, and first in
      `s` or right after a space (when `afterSpace`, the position before
      `s` counts as a space). */
  function WordStarts(s: string, afterSpace: bool): string {
    if s == [] then []
    else
      (if afterSpace && s[0] != ' ' then [s[0]] else [])
      + WordStarts(s[1..], s[0] == ' ')
  }

  /** The parts after the first one start exactly at the word starts that
      follow a space. */
  lemma {:induction false} LaterPartsStartWords(s: string)
    ensures FirstChars(Split(s)[1..]) == WordStarts(s, false)
  {
    if s != [] {
      LaterPartsStartWords(s[1..]);
      if s[0] == ' ' {
        assert Split(s)[1..] == Split(s[1..]);
        var t := s[1..];
        var p := Split(t);
        assert FirstChars(p) == (if p[0] != [] then [p[0][0]] else []) + FirstChars(p[1..]);
        if t != [] {
          assert p[0] != [] <==> t[0] != ' ';
          assert p[0] != [] ==> p[0][0] == t[0];
        }
      } else {
        assert Split(s)[1..] == Split(s[1..])[1..];
      }
    }
  }
}
