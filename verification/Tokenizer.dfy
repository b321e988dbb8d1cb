// explode and the choice of a process name from a command line, src/utils.cpp.
module Tokenizer {

  // ----- explode

  // The words completed so far and the word being collected.
  datatype Scan = Scan(v: seq<string>, buff: string)

  function ScanNext(p: Scan, n: char, c: char): Scan {
    if n != c then Scan(p.v, p.buff + [n])
    else if p.buff != "" then Scan(p.v + [p.buff], "")
    else p
  }

  function ScanOf(s: string, c: char): Scan {
    if s == "" then Scan([], "") else ScanNext(ScanOf(s[..|s| - 1], c), s[|s| - 1], c)
  }

  function Flush(p: Scan): seq<string> {
    if p.buff != "" then p.v + [p.buff] else p.v
  }

  function Tokens(s: string, c: char): seq<string> {
    Flush(ScanOf(s, c))
  }

  method Explode(s: string, c: char) returns (v: seq<string>)
    ensures v == Tokens(s, c)
  {
    var buff := "";
    v := [];
    for i := 0 to |s|
      invariant Scan(v, buff) == ScanOf(s[..i], c)
    {
      assert s[..i + 1][..i] == s[..i];
      var n := s[i];
      if n != c {
        buff := buff + [n];
      } else if n == c && buff != "" {
        v := v + [buff];
        buff := "";
      }
    }
    assert s[..|s|] == s;
    if buff != "" {
      v := v + [buff];
    }
  }

  predicate IsWord(w: string, c: char) {
    w != "" && c !in w
  }

  predicate AreWords(ts: seq<string>, c: char) {
    forall i :: 0 <= i < |ts| ==> IsWord(ts[i], c)
  }

  lemma {:induction false} ScanIsOfWords(s: string, c: char)
    ensures AreWords(ScanOf(s, c).v, c) && c !in ScanOf(s, c).buff
  {
    if s != "" {
      ScanIsOfWords(s[..|s| - 1], c);
    }
  }

  // Tokens are not empty and do not contain the separator.
  lemma TokensAreWords(s: string, c: char)
    ensures AreWords(Tokens(s, c), c)
  {
    ScanIsOfWords(s, c);
  }

  function Concat(ts: seq<string>): string {
    if ts == [] then "" else Concat(ts[..|ts| - 1]) + ts[|ts| - 1]
  }

  function Without(s: string, c: char): string {
    if s == "" then "" else Without(s[..|s| - 1], c) + (if s[|s| - 1] == c then "" else [s[|s| - 1]])
  }

  lemma ConcatAppend(ts: seq<string>, t: string)
    ensures Concat(ts + [t]) == Concat(ts) + t
  {
    assert (ts + [t])[..|ts|] == ts;
  }

  lemma {:induction false} ScanKeepsLetters(s: string, c: char)
    ensures Concat(ScanOf(s, c).v) + ScanOf(s, c).buff == Without(s, c)
  {
    if s != "" {
      var p := ScanOf(s[..|s| - 1], c);
      ScanKeepsLetters(s[..|s| - 1], c);
      ConcatAppend(p.v, p.buff);
      assert Concat(p.v) + (p.buff + [s[|s| - 1]]) == Concat(p.v) + p.buff + [s[|s| - 1]];
    }
  }

  // Nothing but the separators is lost.
  lemma {:induction false} TokensKeepLetters(s: string, c: char)
    ensures Concat(Tokens(s, c)) == Without(s, c)
  {
    var p := ScanOf(s, c);
    ScanKeepsLetters(s, c);
    ConcatAppend(p.v, p.buff);
    assert p.buff == "" ==> Concat(p.v) + p.buff == Concat(p.v);
  }

  lemma {:induction false} ScanAfterBreak(a: string, b: string, c: char)
    requires ScanOf(a, c).buff == ""
    ensures ScanOf(a + b, c) == Scan(ScanOf(a, c).v + ScanOf(b, c).v, ScanOf(b, c).buff)
  {
    if b == "" {
      assert a + b == a && ScanOf(a, c).v + [] == ScanOf(a, c).v;
    } else {
      ScanAfterBreak(a, b[..|b| - 1], c);
      assert (a + b)[..|a + b| - 1] == a + b[..|b| - 1];
    }
  }

  // A separator splits the work.
  lemma TokensSplit(a: string, b: string, c: char)
    ensures Tokens(a + [c] + b, c) == Tokens(a, c) + Tokens(b, c)
  {
    assert (a + [c])[..|a|] == a;
    assert ScanOf(a + [c], c) == Scan(Tokens(a, c), "");
    ScanAfterBreak(a + [c], b, c);
    var p := ScanOf(b, c);
    assert Tokens(a, c) + p.v + [p.buff] == Tokens(a, c) + (p.v + [p.buff]);
  }

  lemma {:induction false} ScanOfWord(w: string, c: char)
    requires c !in w
    ensures ScanOf(w, c) == Scan([], w)
  {
    if w != "" {
      var init, last := w[..|w| - 1], w[|w| - 1];
      assert w == init + [last] && last in w;
      assert c !in init;
      ScanOfWord(init, c);
      assert ScanOf(w, c) == Scan([], init + [last]);
    }
  }

  function Join(ts: seq<string>, c: char): string {
    if ts == [] then "" else Join(ts[..|ts| - 1], c) + [c] + ts[|ts| - 1]
  }

  lemma {:induction false} TokensOfJoin(ts: seq<string>, c: char)
    requires AreWords(ts, c)
    ensures Tokens(Join(ts, c), c) == ts
  {
    if ts != [] {
      var w := ts[|ts| - 1];
      TokensOfJoin(ts[..|ts| - 1], c);
      TokensSplit(Join(ts[..|ts| - 1], c), w, c);
      ScanOfWord(w, c);
    }
  }

  // Joining and exploding again gives the list back exactly when it consists of words; in particular
  // explode's own results survive.
  lemma JoinThenExplode(ts: seq<string>, s: string, c: char)
    ensures Tokens(Join(ts, c), c) == ts <==> AreWords(ts, c)
    ensures Tokens(Join(Tokens(s, c), c), c) == Tokens(s, c)
  {
    if AreWords(ts, c) {
      TokensOfJoin(ts, c);
    }
    TokensAreWords(Join(ts, c), c);
    TokensAreWords(s, c);
    TokensOfJoin(Tokens(s, c), c);
  }

  lemma {:induction false} ScanFindsLetter(s: string, c: char)
    ensures ScanOf(s, c) == Scan([], "") <==> forall i :: 0 <= i < |s| ==> s[i] == c
  {
    if s != "" {
      ScanFindsLetter(s[..|s| - 1], c);
      assert s == s[..|s| - 1] + [s[|s| - 1]];
    }
  }

  // There is a token exactly if there is a character other than the separator.
  lemma {:induction false} TokensExist(s: string, c: char)
    ensures Tokens(s, c) == [] <==> forall i :: 0 <= i < |s| ==> s[i] == c
  {
    ScanFindsLetter(s, c);
  }

  // ----- the command line

  // QChar::isSpace.
  predicate IsSpace(n: char) {
    || n == ' ' || '\t' <= n <= '\r' || n == '\U{85}' || n == '\U{A0}'
    || n == '\U{1680}' || '\U{2000}' <= n <= '\U{200A}' || n == '\U{2028}' || n == '\U{2029}'
    || n == '\U{202F}' || n == '\U{205F}' || n == '\U{3000}'
  }

  function Replaced(s: string, from: char, to: char): (r: string)
    ensures |r| == |s|
    ensures forall i :: 0 <= i < |s| ==> r[i] == if s[i] == from then to else s[i]
  {
    seq(|s|, i requires 0 <= i < |s| => if s[i] == from then to else s[i])
  }

  function Trimmed(s: string): (r: string)
    ensures r != "" ==> !IsSpace(r[0]) && !IsSpace(r[|r| - 1])
    ensures r == "" <==> forall i :: 0 <= i < |s| ==> IsSpace(s[i])
  {
    if s == "" then ""
    else if IsSpace(s[0]) then Trimmed(s[1..])
    else if IsSpace(s[|s| - 1]) then Trimmed(s[..|s| - 1])
    else s
  }

  // Only spaces stand before position i and from position j on.
  ghost predicate SpacesAround(s: string, i: nat, j: nat) {
    i <= j <= |s| && forall k :: 0 <= k < i || j <= k < |s| ==> IsSpace(s[k])
  }

  lemma SpaceInFront(s: string, i: nat, j: nat)
    requires s != "" && IsSpace(s[0]) && SpacesAround(s[1..], i, j)
    ensures SpacesAround(s, i + 1, j + 1) && s[1..][i..j] == s[i + 1..j + 1]
  {
    forall k | 0 < k < i + 1 || j + 1 <= k < |s|
      ensures IsSpace(s[k])
    {
      assert s[k] == s[1..][k - 1];
    }
  }

  lemma SpaceAtEnd(s: string, i: nat, j: nat)
    requires s != "" && IsSpace(s[|s| - 1]) && SpacesAround(s[..|s| - 1], i, j)
    ensures SpacesAround(s, i, j) && s[..|s| - 1][i..j] == s[i..j]
  {
    forall k | 0 <= k < i || j <= k < |s| - 1
      ensures IsSpace(s[k])
    {
      assert s[k] == s[..|s| - 1][k];
    }
  }

  // Trimming takes spaces off both ends and nothing else.
  lemma {:induction false} TrimmedOfSpaces(s: string) returns (i: nat, j: nat)
    ensures SpacesAround(s, i, j) && Trimmed(s) == s[i..j]
    decreases |s|
  {
    i, j := 0, |s|;
    if s == "" {
    } else if IsSpace(s[0]) {
      i, j := TrimmedOfSpaces(s[1..]);
      SpaceInFront(s, i, j);
      i, j := i + 1, j + 1;
    } else if IsSpace(s[|s| - 1]) {
      i, j := TrimmedOfSpaces(s[..|s| - 1]);
      SpaceAtEnd(s, i, j);
    }
  }

  // The line read from /proc, with the separating zero bytes made spaces.
  function ProcessCmdline(line: string): string {
    Trimmed(Replaced(line, '\0', ' '))
  }

  function Arguments(cmdline: string): seq<string> {
    Tokens(Replaced(cmdline, '\\', '/'), ' ')
  }

  // The access to args[0] is always in range: a command line that is not empty after trimming has at
  // least one argument.
  lemma {:induction false} FirstArgumentExists(line: string)
    ensures ProcessCmdline(line) != "" <==> Arguments(ProcessCmdline(line)) != []
  {
    var cmdline := ProcessCmdline(line);
    TokensExist(Replaced(cmdline, '\\', '/'), ' ');
    if cmdline != "" {
      assert Replaced(cmdline, '\\', '/')[0] != ' ';
    }
  }

  // The words, each followed by the character c.
  function Terminated(words: seq<string>, c: char): string {
    if words == [] then "" else Terminated(words[..|words| - 1], c) + words[|words| - 1] + [c]
  }

  function AllReplaced(words: seq<string>, from: char, to: char): (r: seq<string>)
    ensures |r| == |words|
    ensures forall i :: 0 <= i < |words| ==> r[i] == Replaced(words[i], from, to)
  {
    seq(|words|, i requires 0 <= i < |words| => Replaced(words[i], from, to))
  }

  lemma ReplacedAppend(a: string, b: string, from: char, to: char)
    ensures Replaced(a + b, from, to) == Replaced(a, from, to) + Replaced(b, from, to)
  {
  }

  lemma {:induction false} ReplacedTerminated(words: seq<string>, c: char, from: char, to: char)
    ensures Replaced(Terminated(words, c), from, to)
            == Terminated(AllReplaced(words, from, to), if c == from then to else c)
  {
    if words != [] {
      var init, last := words[..|words| - 1], words[|words| - 1];
      ReplacedTerminated(init, c, from, to);
      ReplacedAppend(Terminated(init, c) + last, [c], from, to);
      ReplacedAppend(Terminated(init, c), last, from, to);
      assert AllReplaced(words, from, to)[..|words| - 1] == AllReplaced(init, from, to);
    }
  }

  lemma TokensOfWord(w: string, c: char)
    requires IsWord(w, c)
    ensures Tokens(w, c) == [w]
  {
    ScanOfWord(w, c);
  }

  lemma {:induction false} TokensOfTerminated(words: seq<string>, last: string, c: char)
    requires AreWords(words, c)
    ensures Tokens(Terminated(words, c) + last, c) == words + Tokens(last, c)
  {
    if words == [] {
      assert "" + last == last;
    } else {
      var init, w := words[..|words| - 1], words[|words| - 1];
      TokensOfTerminated(init, w, c);
      TokensOfWord(w, c);
      TokensSplit(Terminated(init, c) + w, last, c);
      assert init + [w] == words;
    }
  }

  lemma TrimmedOfTerminated(body: string)
    requires body != "" && !IsSpace(body[0]) && !IsSpace(body[|body| - 1])
    ensures Trimmed(body + " ") == body
  {
    assert (body + " ")[..|body|] == body;
  }

  // The arguments of a command line are the strings that the kernel ended with zero bytes, backslashes
  // made slashes; provided that they contain no spaces themselves, that none is empty and that the ends
  // of the line are not trimmed.
  lemma {:induction false} ArgumentsAreTerminated(words: seq<string>)
    requires words != [] && AreWords(words, ' ') && AreWords(words, '\0')
    requires !IsSpace(words[0][0]) && !IsSpace(words[|words| - 1][|words[|words| - 1]| - 1])
    ensures Arguments(ProcessCmdline(Terminated(words, '\0'))) == AllReplaced(words, '\\', '/')
  {
    var init, last := words[..|words| - 1], words[|words| - 1];
    ProcessedTerminated(words);
    ArgumentsOfBody(init, last);
    assert AllReplaced(init, '\\', '/') + [Replaced(last, '\\', '/')] == AllReplaced(words, '\\', '/');
  }

  lemma ProcessedTerminated(words: seq<string>)
    requires words != [] && AreWords(words, '\0') && forall i :: 0 <= i < |words| ==> words[i] != ""
    requires !IsSpace(words[0][0]) && !IsSpace(words[|words| - 1][|words[|words| - 1]| - 1])
    ensures ProcessCmdline(Terminated(words, '\0')) == Terminated(words[..|words| - 1], ' ') + words[|words| - 1]
  {
    var init, last := words[..|words| - 1], words[|words| - 1];
    ReplacedTerminated(words, '\0', '\0', ' ');
    NothingReplaced(words, '\0', ' ');
    FirstOfTerminated(init, last, ' ');
    TrimmedOfTerminated(Terminated(init, ' ') + last);
  }

  lemma ArgumentsOfBody(init: seq<string>, last: string)
    requires AreWords(init, ' ') && IsWord(last, ' ')
    ensures Arguments(Terminated(init, ' ') + last) == AllReplaced(init, '\\', '/') + [Replaced(last, '\\', '/')]
  {
    ReplacedAppend(Terminated(init, ' '), last, '\\', '/');
    ReplacedTerminated(init, ' ', '\\', '/');
    SlashedWords(init, last);
    TokensOfWord(Replaced(last, '\\', '/'), ' ');
    TokensOfTerminated(AllReplaced(init, '\\', '/'), Replaced(last, '\\', '/'), ' ');
  }

  lemma SlashedWords(init: seq<string>, last: string)
    requires AreWords(init, ' ') && IsWord(last, ' ')
    ensures AreWords(AllReplaced(init, '\\', '/'), ' ') && IsWord(Replaced(last, '\\', '/'), ' ')
  {
    forall i | 0 <= i < |init|
      ensures IsWord(Replaced(init[i], '\\', '/'), ' ')
    {
      assert IsWord(init[i], ' ');
    }
  }

  lemma NothingReplaced(words: seq<string>, from: char, to: char)
    requires AreWords(words, from)
    ensures AllReplaced(words, from, to) == words
  {
    forall i | 0 <= i < |words|
      ensures Replaced(words[i], from, to) == words[i]
    {
      assert IsWord(words[i], from);
    }
  }

  lemma {:induction false} FirstOfTerminated(words: seq<string>, last: string, c: char)
    requires last != "" && forall i :: 0 <= i < |words| ==> words[i] != ""
    ensures (Terminated(words, c) + last)[0] == if words == [] then last[0] else words[0][0]
  {
    if words != [] {
      FirstOfTerminated(words[..|words| - 1], words[|words| - 1], c);
    }
  }

  // name is what follows the last slash of the path, or all of the path if it has none.
  predicate FollowsLastSlash(name: string, path: string) {
    && '/' !in name && |name| <= |path|
    && name == path[|path| - |name|..]
    && (|name| < |path| ==> path[|path| - |name| - 1] == '/')
  }

  function FileName(path: string): (name: string)
    ensures FollowsLastSlash(name, path)
  {
    if path == "" then ""
    else if path[|path| - 1] == '/' then ""
    else FileName(path[..|path| - 1]) + [path[|path| - 1]]
  }

  // Which argument names the process. A script program is named by its first argument that is an
  // absolute path, or failing that by its first argument that is not an option.
  ghost predicate NamesProcess(args: seq<string>, scripts: set<string>, i: nat)
    requires i < |args|
  {
    var script := FileName(args[0]) in scripts;
    var path := exists j :: 1 <= j < |args| && "/" <= args[j];
    var plain := exists j :: 1 <= j < |args| && !("-" <= args[j]);
    if !script || (!path && !plain) then i == 0
    else if path then 1 <= i && "/" <= args[i] && forall j :: 1 <= j < i ==> !("/" <= args[j])
    else 1 <= i && !("-" <= args[i]) && forall j :: 1 <= j < i ==> "-" <= args[j]
  }

  method GetProcessNameFromCmdLine(line: string, scripts: set<string>) returns (name: string)
    ensures ProcessCmdline(line) == "" ==> name == ""
    ensures ProcessCmdline(line) != "" ==>
              var args := Arguments(ProcessCmdline(line));
              exists i: nat :: i < |args| && NamesProcess(args, scripts, i) && FollowsLastSlash(name, args[i])
  {
    var cmdline := ProcessCmdline(line);
    if |cmdline| < 1 {
      return "";
    }
    var args := Explode(Replaced(cmdline, '\\', '/'), ' ');
    FirstArgumentExists(line);
    name := FileName(args[0]);
    if name in scripts && |args| > 1 {
      for k := 1 to |args|
        invariant forall j :: 1 <= j < k ==> !("/" <= args[j])
      {
        if "/" <= args[k] {
          assert NamesProcess(args, scripts, k);
          return FileName(args[k]);
        }
      }
      for k := 1 to |args|
        invariant forall j :: 1 <= j < k ==> "-" <= args[j]
      {
        if !("-" <= args[k]) {
          assert NamesProcess(args, scripts, k);
          return FileName(args[k]);
        }
      }
    }
    assert NamesProcess(args, scripts, 0);
  }
}
