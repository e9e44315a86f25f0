/** How the agent splits a command into arguments when the image has no shell. */
module AgentWords {
  import opened Results
  import opened Bytes

  type Word = seq<Byte>

  predicate Blank(c: Byte) {
    c == 0x20 || c == 0x09
  }

  function WordLen(line: seq<Byte>): (n: nat)
    ensures n <= |line| && (forall i | 0 <= i < n :: !Blank(line[i])) && (n < |line| ==> Blank(line[n]))
  {
    if line == [] || Blank(line[0]) then 0 else 1 + WordLen(line[1..])
  }

  function Words(line: seq<Byte>): seq<Word>
    decreases |line|
  {
    if line == [] then []
    else if Blank(line[0]) then Words(line[1..])
    else [line[..WordLen(line)]] + Words(line[WordLen(line)..])
  }

  // What the words are

  lemma {:induction false} NoBlankIsOneWord(word: Word)
    requires word != [] && forall i | 0 <= i < |word| :: !Blank(word[i])
    ensures Words(word) == [word]
  {
    assert WordLen(word) == |word|;
    assert word[..|word|] == word && word[|word|..] == [];
  }

  /** A blank separates: the words on its two sides, in order. */
  lemma {:induction false} BlankSeparates(a: seq<Byte>, c: Byte, b: seq<Byte>)
    requires Blank(c)
    ensures Words(a + [c] + b) == Words(a) + Words(b)
    decreases |a|
  {
    var line := a + [c] + b;
    if a == [] {
      assert line[1..] == b;
    } else if Blank(a[0]) {
      assert line[1..] == a[1..] + [c] + b;
      BlankSeparates(a[1..], c, b);
    } else {
      var n := WordLen(a);
      FirstWordIsTheSame(a, c, b);
      assert line[..n] == a[..n] && line[n..] == a[n..] + [c] + b;
      BlankSeparates(a[n..], c, b);
      assert Words(line) == [a[..n]] + (Words(a[n..]) + Words(b));
    }
  }

  lemma FirstWordIsTheSame(a: seq<Byte>, c: Byte, b: seq<Byte>)
    requires Blank(c)
    ensures WordLen(a + [c] + b) == WordLen(a)
  {
    var line := a + [c] + b;
    assert forall i | 0 <= i < |a| :: line[i] == a[i];
    assert line[|a|] == c;
    WordLenIs(line, WordLen(a));
  }

  lemma {:induction false} WordLenIs(line: seq<Byte>, n: nat)
    requires n <= |line| && (forall i | 0 <= i < n :: !Blank(line[i])) && (n < |line| ==> Blank(line[n]))
    ensures WordLen(line) == n
  {
    if n > 0 { WordLenIs(line[1..], n - 1); }
  }

  // How many there are

  /** A line of n bytes has at most (n + 1) / 2 words. */
  lemma {:induction false} AtMostEveryOtherByte(line: seq<Byte>)
    ensures 2 * |Words(line)| <= |line| + 1
    decreases |line|
  {
    if line != [] {
      if Blank(line[0]) {
        AtMostEveryOtherByte(line[1..]);
      } else {
        var rest := line[WordLen(line)..];
        if rest != [] {
          assert Words(rest) == Words(rest[1..]);
          AtMostEveryOtherByte(rest[1..]);
        }
      }
    }
  }

  /** The next token, as strtok_r finds it from `position`. */
  method NextWord(line: seq<Byte>, position: nat) returns (start: nat, end: nat)
    requires position <= |line|
    ensures position <= start <= end <= |line|
    ensures Words(line[position..]) == if start == end then [] else [line[start..end]] + Words(line[end..])
  {
    start := position;
    while start < |line| && Blank(line[start])
      invariant position <= start <= |line| && Words(line[position..]) == Words(line[start..])
    {
      SkipBlank(line, start);
      start := start + 1;
    }
    end := start;
    while end < |line| && !Blank(line[end])
      invariant start <= end <= |line| && forall i | start <= i < end :: !Blank(line[i])
    {
      end := end + 1;
    }
    if start < end { TakeWord(line, start, end); }
  }

  /** Every argument fits the vector, and so does the null that ends it. */
  method SplitWords(line: seq<Byte>) returns (argv: array<Option<Word>>, argc: nat)
    ensures argv.Length == |line| / 2 + 2
    ensures argc == |Words(line)| < argv.Length && argv[argc] == None
    ensures forall i | 0 <= i < argc :: argv[i] == Some(Words(line)[i])
  {
    argv := new Option<Word>[|line| / 2 + 2](_ => None);
    argc := 0;
    ghost var words := Words(line);
    AtMostEveryOtherByte(line);
    assert line[0..] == line;
    var start, end := NextWord(line, 0);
    while start < end
      invariant start <= end <= |line| && argc <= |words|
      invariant words[argc..] == if start == end then [] else [line[start..end]] + Words(line[end..])
      invariant forall i | 0 <= i < argc :: argv[i] == Some(words[i])
      decreases if start == end then 0 else |line| - start
    {
      assert words[argc] == words[argc..][0] && words[argc + 1..] == words[argc..][1..];
      argv[argc] := Some(line[start..end]);
      argc := argc + 1;
      start, end := NextWord(line, end);
    }
    argv[argc] := None;
  }

  lemma SkipBlank(line: seq<Byte>, position: nat)
    requires position < |line| && Blank(line[position])
    ensures Words(line[position..]) == Words(line[position + 1..])
  {
    assert line[position..][1..] == line[position + 1..];
  }

  lemma TakeWord(line: seq<Byte>, start: nat, end: nat)
    requires start < end <= |line| && (forall i | start <= i < end :: !Blank(line[i])) && (end < |line| ==> Blank(line[end]))
    ensures Words(line[start..]) == [line[start..end]] + Words(line[end..])
  {
    var rest, n := line[start..], end - start;
    WordLenIs(rest, n);
    assert rest[..n] == line[start..end] && rest[n..] == line[end..];
  }
}
