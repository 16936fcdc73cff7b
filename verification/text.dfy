/** The text normalisation the compiler applies to its keywords: strings.ToLower(strings.TrimSpace(s)).
    Only characters whose lower case is an ASCII letter are mapped: no comparison against an
    ASCII keyword can tell what the other ones become. */
module Text {
  predicate IsSpace(c: char) {
    var n := c as int;
    (9 <= n <= 13) || n == 0x20 || n == 0x85 || n == 0xA0 || n == 0x1680 || (0x2000 <= n <= 0x200A)
    || n == 0x2028 || n == 0x2029 || n == 0x202F || n == 0x205F || n == 0x3000
  }

  function TrimLeft(s: string): string {
    if s != [] && IsSpace(s[0]) then TrimLeft(s[1..]) else s
  }

  function TrimRight(s: string): string {
    if s != [] && IsSpace(s[|s| - 1]) then TrimRight(s[..|s| - 1]) else s
  }

  function LowerChar(c: char): char {
    if 'A' <= c <= 'Z' then ((c as int) + 32) as char
    else if c as int == 0x130 then 'i'
    else if c as int == 0x212A then 'k'
    else c
  }

  function ToLower(s: string): (r: string)
    ensures |r| == |s|
  {
    seq(|s|, i requires 0 <= i < |s| => LowerChar(s[i]))
  }

  function Normalize(s: string): string {
    ToLower(TrimRight(TrimLeft(s)))
  }

  /** Lower-casing twice is lower-casing once, so the loader's second ToLower changes nothing. */
  lemma LowerIdempotent(s: string)
    ensures ToLower(ToLower(s)) == ToLower(s)
  {
    forall i | 0 <= i < |s|
      ensures LowerChar(LowerChar(s[i])) == LowerChar(s[i])
    {
    }
  }

  // ---- What normalisation is -------------------------------------------------------------

  ghost predicate AllSpace(s: string) {
    forall i | 0 <= i < |s| :: IsSpace(s[i])
  }

  ghost predicate Tight(s: string) {
    s != [] ==> !IsSpace(s[0]) && !IsSpace(s[|s| - 1])
  }

  lemma {:induction false} TrimLeftSplits(s: string) returns (pre: string)
    ensures s == pre + TrimLeft(s) && AllSpace(pre)
    ensures TrimLeft(s) != [] ==> !IsSpace(TrimLeft(s)[0])
  {
    if s != [] && IsSpace(s[0]) {
      var rest := TrimLeftSplits(s[1..]);
      pre := [s[0]] + rest;
    } else {
      pre := [];
    }
  }

  lemma {:induction false} TrimRightSplits(s: string) returns (post: string)
    ensures s == TrimRight(s) + post && AllSpace(post)
    ensures TrimRight(s) != [] ==> !IsSpace(TrimRight(s)[|TrimRight(s)| - 1])
  {
    if s != [] && IsSpace(s[|s| - 1]) {
      var rest := TrimRightSplits(s[..|s| - 1]);
      post := rest + [s[|s| - 1]];
    } else {
      post := [];
    }
  }

  /** Normalising takes the white space off both ends and lower-cases what is left, character by
      character. */
  lemma NormalizeSplits(s: string) returns (pre: string, core: string, post: string)
    ensures s == pre + core + post && AllSpace(pre) && AllSpace(post) && Tight(core)
    ensures |Normalize(s)| == |core| && forall i | 0 <= i < |core| :: Normalize(s)[i] == LowerChar(core[i])
  {
    pre := TrimLeftSplits(s);
    var left := TrimLeft(s);
    post := TrimRightSplits(left);
    core := TrimRight(left);
    assert core != [] ==> core[0] == left[0];
  }

  /** White space is at least the blank, tab and line ends, and no printable ASCII character; capital
      letters become small ones and other ASCII characters stay. */
  lemma AsciiSpelledOut(c: char)
    requires c as int < 128
    ensures IsSpace(c) <==> c == ' ' || c == '\t' || c == '\n' || c == '\r' || c as int == 11 || c as int == 12
    ensures 'A' <= c <= 'Z' ==> LowerChar(c) as int - 'a' as int == c as int - 'A' as int
    ensures !('A' <= c <= 'Z') ==> LowerChar(c) == c
  {
  }

  /** Beyond ASCII, white space is what Unicode says it is. */
  lemma UnicodeSpaceSpelledOut(c: char)
    requires c as int >= 128
    ensures IsSpace(c)
       <==> || c as int in {0x85, 0xA0, 0x1680, 0x2028, 0x2029, 0x202F, 0x205F, 0x3000}
            || c as int in {0x2000, 0x2001, 0x2002, 0x2003, 0x2004, 0x2005, 0x2006, 0x2007, 0x2008, 0x2009, 0x200A}
  {
  }

  /** So a keyword is recognised in any case and with white space around it. */
  lemma WordsRecognised()
    ensures Normalize(" Deny\n") == "deny" && Normalize("ALLOW") == "allow" && Normalize("\tTcp ") == "tcp"
  {
    assert TrimLeft(" Deny\n") == TrimLeft("Deny\n") == "Deny\n";
    assert TrimRight("Deny\n") == TrimRight("Deny") == "Deny";
    assert TrimLeft("ALLOW") == "ALLOW" && TrimRight("ALLOW") == "ALLOW";
    assert TrimLeft("\tTcp ") == TrimLeft("Tcp ") == "Tcp ";
    assert TrimRight("Tcp ") == TrimRight("Tcp") == "Tcp";
  }
}
