/**
 The two ends of a connection as the HTTP engine sees them.

 A reader is the sequence of bytes still to come; a writer is the log of the bytes
 written. How the network splits the input is left to the nondeterministic choice
 in `Read`, so whatever is proved of a caller holds for every fragmentation.
 */
module Streams {

  /** The next line of `s`: up to and including LF, or all of `s` when it has none. */
  function Line(s: string): (l: string)
    ensures l <= s && (l == "" <==> s == "")
  {
    if s == "" then ""
    else if s[0] == '\n' then s[..1]
    else s[..1] + Line(s[1..])
  }

  predicate Unterminated(s: string) {
    '\n' !in s
  }

  predicate IsLine(s: string) {
    s != "" && s[|s| - 1] == '\n' && Unterminated(s[..|s| - 1])
  }

  predicate IsBlank(s: string) {
    s == "\r\n" || s == "\n"
  }

  /** A terminated line is read whole, whatever follows it. */
  lemma {:induction false} LineOfLine(l: string, rest: string)
    requires IsLine(l)
    ensures Line(l + rest) == l
  {
    assert (l + rest)[..1] == l[..1];
    assert |l| > 1 ==> l[..|l| - 1][0] == l[0];
    if l[0] != '\n' {
      assert l[..|l| - 1][1..] == l[1..][..|l[1..]| - 1];
      LineOfLine(l[1..], rest);
      assert (l + rest)[1..] == l[1..] + rest;
      assert l[..1] + l[1..] == l;
    }
  }

  lemma {:induction false} LineOfUnterminated(s: string)
    requires Unterminated(s)
    ensures Line(s) == s
  {
    if s != "" {
      LineOfUnterminated(s[1..]);
      assert s[..1] + s[1..] == s;
    }
  }

  /** What `readline` returns is a terminated line, or everything there was. */
  lemma {:induction false} LineShape(s: string)
    requires s != ""
    ensures IsLine(Line(s)) || (Line(s) == s && Unterminated(s))
  {
    if s[0] != '\n' {
      assert s[..1] + s[1..] == s;
      if s[1..] != "" {
        LineShape(s[1..]);
        var l := Line(s[1..]);
        assert Line(s) == s[..1] + l;
        if IsLine(l) {
          assert Line(s)[..|Line(s)| - 1] == s[..1] + l[..|l| - 1];
        }
      }
    }
  }

  class Reader {
    var unread: string

    constructor (input: string)
      ensures unread == input
    {
      unread := input;
    }

    /** `read(n)`: some bytes, at most `n`; none only at the end of the input. */
    method Read(n: nat) returns (data: string)
      modifies this
      ensures old(unread) == data + unread
      ensures |data| <= n && (data == "" ==> n == 0 || unread == "")
    {
      if n == 0 || unread == "" {
        data := "";
      } else {
        var k: nat :| 1 <= k <= n && k <= |unread|;
        data, unread := unread[..k], unread[k..];
      }
    }

    method ReadLine() returns (line: string)
      modifies this
      ensures line == Line(old(unread)) && old(unread) == line + unread
    {
      line := Line(unread);
      unread := unread[|line|..];
    }

    /** `readexactly(n)`: on a short input the bytes read are lost with the failure. */
    method ReadExactly(n: nat) returns (ok: bool, data: string)
      modifies this
      ensures ok <==> n <= |old(unread)|
      ensures ok ==> data == old(unread)[..n] && unread == old(unread)[n..]
      ensures !ok ==> data == "" && unread == ""
    {
      ok := n <= |unread|;
      if ok {
        data, unread := unread[..n], unread[n..];
      } else {
        data, unread := "", "";
      }
    }
  }

  class Writer {
    var log: string

    constructor ()
      ensures log == ""
    {
      log := "";
    }

    method Write(data: string)
      modifies this
      ensures log == old(log) + data
    {
      log := log + data;
    }
  }
}
