/** The buffer loop of grep: lines out of a stream that read delivers in pieces of any size. */
module GrepFilter {
  import opened GrepMatch

  const BUF: nat := 1024

  // ----- what grep writes -----

  /** The position of the first newline, or the length. */
  function Newline(s: string): (q: nat)
    ensures q <= |s|
  {
    if s == [] then 0 else if s[0] == '\n' then 0 else 1 + Newline(s[1..])
  }

  lemma {:induction false} NewlineIs(s: string)
    ensures (Newline(s) < |s| ==> s[Newline(s)] == '\n') && forall i :: 0 <= i < Newline(s) ==> s[i] != '\n'
  {
    if s != [] && s[0] != '\n' {
      NewlineIs(s[1..]);
    }
  }

  /** The lines that a pattern matches. */
  ghost function Hits(re: string): string -> bool { s => Matches(re, s) }

  /** The matching lines up to the first line that does not fit the buffer. */
  ghost function Output(hit: string -> bool, input: string): string
    decreases |input|
  {
    var q := Newline(input);
    if q >= |input| || q > BUF - 2 then []
    else (if hit(input[..q]) then input[..q + 1] else []) + Output(hit, input[q + 1..])
  }

  /** The newline-terminated lines of a text, without their newlines. */
  function Lines(input: string): seq<string>
    decreases |input|
  {
    var q := Newline(input);
    if q >= |input| then [] else [input[..q]] + Lines(input[q + 1..])
  }

  ghost function Matching(hit: string -> bool, lines: seq<string>): string {
    if lines == [] then []
    else (if hit(lines[0]) then lines[0] + "\n" else []) + Matching(hit, lines[1..])
  }

  predicate AllShort(lines: seq<string>) {
    forall i :: 0 <= i < |lines| ==> |lines[i]| <= BUF - 2
  }

  /** The position of the first line that does not fit the buffer, or the number of lines. */
  function FirstLong(lines: seq<string>): (k: nat)
    ensures k <= |lines| && AllShort(lines[..k])
    ensures k < |lines| ==> |lines[k]| > BUF - 2
  {
    if lines == [] || |lines[0]| > BUF - 2 then 0 else 1 + FirstLong(lines[1..])
  }

  lemma HeadAndTail(line: string, lines: seq<string>)
    ensures ([line] + lines)[0] == line && ([line] + lines)[1..] == lines
  {
  }

  lemma MatchingHead(hit: string -> bool, line: string, lines: seq<string>)
    ensures Matching(hit, [line] + lines) == (if hit(line) then line + "\n" else []) + Matching(hit, lines)
  {
    HeadAndTail(line, lines);
  }

  lemma {:induction false} MatchingJoin(hit: string -> bool, a: seq<string>, b: seq<string>)
    ensures Matching(hit, a + b) == Matching(hit, a) + Matching(hit, b)
  {
    if a == [] {
      assert a + b == b;
    } else {
      MatchingJoin(hit, a[1..], b);
      MatchingHead(hit, a[0], a[1..] + b);
      assert a + b == [a[0]] + (a[1..] + b);
    }
  }

  lemma {:induction false} NothingMatches(hit: string -> bool, lines: seq<string>)
    ensures Matching(hit, lines) == [] <==> forall i :: 0 <= i < |lines| ==> !hit(lines[i])
  {
    if lines != [] {
      NothingMatches(hit, lines[1..]);
      assert forall i :: 0 < i < |lines| ==> lines[i] == lines[1..][i - 1];
      assert forall i :: 0 <= i < |lines| - 1 ==> lines[1..][i] == lines[i + 1];
    }
  }

  lemma FirstLongStep(line: string, rest: seq<string>)
    requires |line| <= BUF - 2
    ensures FirstLong([line] + rest) == FirstLong(rest) + 1
    ensures ([line] + rest)[..FirstLong(rest) + 1] == [line] + rest[..FirstLong(rest)]
  {
    HeadAndTail(line, rest);
  }

  /** The output is the matching lines in front of the first line longer than 1022 characters. */
  lemma {:induction false} OutputIsPrefix(hit: string -> bool, input: string)
    ensures var lines := Lines(input);
            Output(hit, input) == Matching(hit, lines[..FirstLong(lines)])
    decreases |input|
  {
    var q := Newline(input);
    if q < |input| && q <= BUF - 2 {
      var line, rest := input[..q], Lines(input[q + 1..]);
      NewlineIs(input);
      OutputIsPrefix(hit, input[q + 1..]);
      FirstLongStep(line, rest);
      MatchingHead(hit, line, rest[..FirstLong(rest)]);
      assert input[..q + 1] == line + "\n";
    }
  }

  /** grep writes all the matching lines of a text exactly when none of them is longer than 1022
      characters or comes after a line that is. */
  lemma {:induction false} CompleteIff(hit: string -> bool, input: string)
    ensures var lines := Lines(input);
            Output(hit, input) == Matching(hit, lines)
            <==> forall i :: FirstLong(lines) <= i < |lines| ==> !hit(lines[i])
  {
    var lines := Lines(input);
    var k := FirstLong(lines);
    OutputIsPrefix(hit, input);
    assert lines == lines[..k] + lines[k..];
    MatchingJoin(hit, lines[..k], lines[k..]);
    NothingMatches(hit, lines[k..]);
    assert forall i :: k <= i < |lines| ==> lines[i] == lines[k..][i - k];
    assert forall i :: 0 <= i < |lines| - k ==> lines[k..][i] == lines[k + i];
  }

  /** It does so whatever the pattern exactly when every line fits the buffer. */
  lemma AlwaysCompleteIff(input: string)
    ensures (forall hit :: Output(hit, input) == Matching(hit, Lines(input))) <==> AllShort(Lines(input))
  {
    var lines := Lines(input);
    if AllShort(lines) {
      forall hit ensures Output(hit, input) == Matching(hit, lines) {
        CompleteIff(hit, input);
      }
    } else {
      var all: string -> bool := line => true;
      CompleteIff(all, input);
      var k := FirstLong(lines);
      assert lines[..k] == lines || k < |lines|;
      assert Output(all, input) != Matching(all, lines) by {
        assert all(lines[k]);
      }
    }
  }

  // ----- the loop -----

  /** What read returns: something between 1 and what fits, or 0 at the end or when nothing fits. */
  function ReadSize(choice: nat, cap: nat, rest: nat): (n: nat)
    ensures n <= cap && n <= rest && (n == 0 <==> cap == 0 || rest == 0)
  {
    var most := if cap < rest then cap else rest;
    if choice == 0 || choice > most then most else choice
  }

  /** Written is looked into only where this is mentioned. */
  ghost predicate Look(n: int, out: string) { true }

  /** What has been written is what grep writes for the input up to `at`. */
  ghost predicate Written(out: string, hit: string -> bool, input: string, at: nat) {
    forall n: int {:trigger Look(n, out)} :: 0 <= n ==>
      at <= |input| && out + Output(hit, input[at..]) == Output(hit, input)
  }

  lemma WrittenNothing(hit: string -> bool, input: string)
    ensures Written([], hit, input, 0)
  {
    assert input[0..] == input;
  }

  lemma WrittenAll(out: string, hit: string -> bool, input: string, at: nat)
    requires Written(out, hit, input, at) && at <= |input| && Output(hit, input[at..]) == []
    ensures out == Output(hit, input)
  {
    assert Look(0, out);
    assert out + [] == out;
  }

  lemma WrittenMore(out: string, text: string, hit: string -> bool, input: string, at: nat, at': nat)
    requires Written(out, hit, input, at) && at <= |input| && at' <= |input|
    requires Output(hit, input[at..]) == text + Output(hit, input[at'..])
    ensures Written(out + text, hit, input, at')
  {
    assert Look(0, out);
    assert out + (text + Output(hit, input[at'..])) == out + text + Output(hit, input[at'..]);
  }

  lemma NewlineAt(s: string, q: nat)
    requires q < |s| && s[q] == '\n' && forall i :: 0 <= i < q ==> s[i] != '\n'
    ensures Newline(s) == q
  {
    NewlineIs(s);
  }

  /** strchr(p, '\n') in a buffer that ends at m: the position of the first newline from p on, or -1. */
  method Strchr(buf: array<char>, p: nat, m: nat) returns (q: int)
    requires p <= m < buf.Length && buf[m] == '\0' && forall i :: p <= i < m ==> buf[i] != '\0'
    ensures q == -1 ==> forall i :: p <= i < m ==> buf[i] != '\n'
    ensures q != -1 ==> p <= q < m && buf[q] == '\n' && forall i :: p <= i < q ==> buf[i] != '\n'
  {
    q := p;
    while buf[q] != '\0'
      invariant p <= q <= m && forall i :: p <= i < q ==> buf[i] != '\n'
      decreases m - q
    {
      if buf[q] == '\n' {
        return;
      }
      q := q + 1;
    }
    return -1;
  }

  /** read into the buffer from m on, and the NUL after it. */
  method Fill(buf: array<char>, m: nat, input: string, pos: nat, n: nat)
    requires m + n < buf.Length && pos + n <= |input|
    modifies buf
    ensures buf[..m] == old(buf[..m]) && buf[m..m + n] == input[pos..pos + n] && buf[m + n] == '\0'
  {
    var i := 0;
    while i < n
      invariant 0 <= i <= n && buf[..m] == old(buf[..m]) && buf[m..m + i] == input[pos..pos + i]
    {
      buf[m + i] := input[pos + i];
      i := i + 1;
    }
    buf[m + n] := '\0';
  }

  /** memmove(buf, p, m - p). */
  method MoveDown(buf: array<char>, p: nat, m: nat)
    requires p <= m <= buf.Length
    modifies buf
    ensures buf[..m - p] == old(buf[p..m])
  {
    var i := 0;
    while i < m - p
      invariant 0 <= i <= m - p && buf[..i] == old(buf[p..p + i])
      invariant forall j :: p + i <= j < m ==> buf[j] == old(buf[j])
    {
      buf[i] := buf[p + i];
      i := i + 1;
    }
  }

  lemma OutputStep(hit: string -> bool, input: string, b: nat, p: nat, q: nat)
    requires b + p <= b + q < |input| && q - p <= BUF - 2 && input[b + q] == '\n'
             && forall i :: b + p <= i < b + q ==> input[i] != '\n'
    ensures Output(hit, input[b + p..])
         == (if hit(input[b + p..b + q]) then input[b + p..b + (q + 1)] else []) + Output(hit, input[b + (q + 1)..])
  {
    var rest := input[b + p..];
    NewlineAt(rest, q - p);
    assert rest[..q - p] == input[b + p..b + q] && rest[..q - p + 1] == input[b + p..b + (q + 1)];
    assert rest[q - p + 1..] == input[b + (q + 1)..];
  }

  /** The body of the inner loop: the line from p to q is written if it matches. */
  method WriteLine(re: string, buf: array<char>, p: nat, q: nat) returns (text: string)
    requires p <= q < buf.Length && buf[q] == '\n'
    modifies buf
    ensures text == if Matches(re, old(buf[p..q])) then old(buf[p..q + 1]) else []
    ensures forall i :: 0 <= i < buf.Length && i != q ==> buf[i] == old(buf[i])
  {
    buf[q] := '\0';
    var matched := Match(re, buf[p..q]);
    assert buf[p..q] == old(buf[p..q]);
    text := [];
    if matched {
      buf[q] := '\n';
      text := buf[p..q + 1];
      assert text == old(buf[p..q + 1]);
    }
  }

  /** The buffer from p to m holds the input from b + p to b + m. */
  ghost predicate Holds(buf: seq<char>, input: string, b: nat, p: nat, m: nat) {
    p <= m <= |buf| && b + m <= |input| && forall i, j :: p <= i < m && j == b + i ==> buf[i] == input[j]
  }

  lemma HeldSlice(buf: seq<char>, input: string, b: nat, p: nat, m: nat, lo: nat, hi: nat)
    requires Holds(buf, input, b, p, m) && p <= lo <= hi <= m
    ensures buf[lo..hi] == input[b + lo..b + hi]
  {
  }

  lemma HeldLine(buf: seq<char>, input: string, b: nat, p: nat, q: nat, m: nat)
    requires p <= q < m < BUF && m <= |buf| && Holds(buf, input, b, p, m)
    requires buf[q] == '\n' && forall i :: p <= i < q ==> buf[i] != '\n'
    ensures b + q < |input| && input[b + q] == '\n' && forall j :: b + p <= j < b + q ==> input[j] != '\n'
    ensures buf[p..q] == input[b + p..b + q] && buf[p..q + 1] == input[b + p..b + (q + 1)]
  {
    HeldSlice(buf, input, b, p, m, p, q);
    HeldSlice(buf, input, b, p, m, p, q + 1);
    forall j | b + p <= j < b + q ensures input[j] != '\n' {
      assert buf[j - b] == input[j];
    }
    var j := b + q;
    assert buf[q] == input[j];
  }

  lemma LineStep(text: string, hit: string -> bool, buf: seq<char>, input: string, b: nat, p: nat, q: nat, m: nat)
    requires p <= q < m < BUF && m <= |buf| && Holds(buf, input, b, p, m)
    requires buf[q] == '\n' && forall i :: p <= i < q ==> buf[i] != '\n'
    requires text == if hit(buf[p..q]) then buf[p..q + 1] else []
    ensures b + q < |input| && Output(hit, input[b + p..]) == text + Output(hit, input[b + (q + 1)..])
  {
    HeldLine(buf, input, b, p, q, m);
    OutputStep(hit, input, b, p, q);
  }

  lemma LineWritten(out: string, text: string, hit: string -> bool, buf: seq<char>, input: string, b: nat, p: nat,
                    q: nat, m: nat)
    requires p <= q < m < BUF && m <= |buf| && Holds(buf, input, b, p, m) && Written(out, hit, input, b + p)
    requires buf[q] == '\n' && forall i :: p <= i < q ==> buf[i] != '\n'
    requires text == if hit(buf[p..q]) then buf[p..q + 1] else []
    ensures Written(out + text, hit, input, b + (q + 1))
  {
    LineStep(text, hit, buf, input, b, p, q, m);
    WrittenMore(out, text, hit, input, b + p, b + (q + 1));
  }

  /** One turn of the inner loop. */
  method NextLine(re: string, buf: array<char>, p: nat, q: nat, m: nat, ghost input: string, ghost b: nat, out: string)
    returns (out': string)
    requires p <= q < m < BUF == buf.Length && Holds(buf[..], input, b, p, m) && Written(out, Hits(re), input, b + p)
    requires buf[q] == '\n' && forall i :: p <= i < q ==> buf[i] != '\n'
    modifies buf
    ensures Holds(buf[..], input, b, q + 1, m) && buf[m] == old(buf[m]) && Written(out', Hits(re), input, b + (q + 1))
  {
    ghost var was := buf[..];
    assert was[p..q] == buf[p..q] && was[p..q + 1] == buf[p..q + 1];
    var text := WriteLine(re, buf, p, q);
    LineWritten(out, text, Hits(re), was, input, b, p, q, m);
    out' := out + text;
  }

  /** The inner loop: every complete line in the buffer is written if it matches. */
  method WriteLines(re: string, buf: array<char>, m: nat, ghost input: string, ghost b: nat, out: string)
    returns (p: nat, out': string)
    requires m < BUF == buf.Length && Holds(buf[..], input, b, 0, m) && buf[m] == '\0'
    requires (forall i :: 0 <= i < |input| ==> input[i] != '\0') && Written(out, Hits(re), input, b)
    modifies buf
    ensures p <= m && Holds(buf[..], input, b, p, m) && forall i :: p <= i < m ==> buf[i] != '\n'
    ensures Written(out', Hits(re), input, b + p)
  {
    p, out' := 0, out;
    while true
      invariant p <= m && buf[m] == '\0' && Holds(buf[..], input, b, p, m) && Written(out', Hits(re), input, b + p)
      decreases m - p
    {
      forall i | p <= i < m ensures buf[i] != '\0' {
        assert buf[..][i] == input[b + i];
      }
      var q := Strchr(buf, p, m);
      if q == -1 {
        return;
      }
      out' := NextLine(re, buf, p, q, m, input, b, out');
      p := q + 1;
    }
  }

  lemma NothingLeft(hit: string -> bool, rest: string, m: nat)
    requires m <= |rest| && (forall i :: 0 <= i < m ==> rest[i] != '\n') && (m == |rest| || m == BUF - 1)
    ensures Output(hit, rest) == []
  {
    NewlineIs(rest);
    assert Newline(rest) >= m;
  }

  lemma Held(buf: seq<char>, buf': seq<char>, input: string, b: nat, p: nat, m: nat)
    requires Holds(buf, input, b, p, m) && m - p <= |buf'| && buf'[..m - p] == buf[p..m]
    ensures Holds(buf', input, b + p, 0, m - p)
  {
    forall i, j | 0 <= i < m - p && j == b + p + i ensures buf'[i] == input[j] {
      assert buf'[i] == buf'[..m - p][i] == buf[p..m][i] == buf[p + i];
    }
  }

  /** One turn of the outer loop, after read has delivered n characters. */
  method TakePiece(re: string, buf: array<char>, m: nat, input: string, pos: nat, n: nat, out: string)
    returns (m': nat, out': string)
    requires buf.Length == BUF && m <= pos && m + n < BUF && pos + n <= |input| && Holds(buf[..], input, pos - m, 0, m)
    requires (forall i :: 0 <= i < |input| ==> input[i] != '\0') && Written(out, Hits(re), input, pos - m)
    modifies buf
    ensures m' <= m + n && m' <= pos + n && Holds(buf[..], input, pos + n - m', 0, m')
            && forall i :: 0 <= i < m' ==> buf[i] != '\n'
    ensures Written(out', Hits(re), input, pos + n - m')
  {
    ghost var b := pos - m;
    ghost var before := buf[..];
    Fill(buf, m, input, pos, n);
    Joined(before, buf[..], input, b, m, n);
    var p;
    p, out' := WriteLines(re, buf, m + n, input, b, out);
    ghost var kept := buf[..];
    assert forall i :: p <= i < m + n ==> kept[i] != '\n';
    MoveDown(buf, p, m + n);
    m' := m + n - p;
    assert buf[..][..m'] == buf[..m'];
    Held(kept, buf[..], input, b, p, m + n);
    forall i | 0 <= i < m' ensures buf[i] != '\n' {
      assert buf[i] == buf[..m'][i] == kept[p..m + n][i] == kept[p + i];
    }
  }

  lemma Joined(before: seq<char>, after: seq<char>, input: string, b: nat, m: nat, n: nat)
    requires Holds(before, input, b, 0, m) && m + n <= |after| && b + m + n <= |input|
    requires after[..m] == before[..m] && after[m..m + n] == input[b + m..b + m + n]
    ensures Holds(after, input, b, 0, m + n)
  {
    forall i, j | 0 <= i < m + n && j == b + i ensures after[i] == input[j] {
      if i < m {
        assert after[i] == after[..m][i] == before[i];
      } else {
        assert after[i] == after[m..m + n][i - m];
      }
    }
  }

  /** grep: for every NUL-free input and however read splits it, the output is the matching lines up to the
      first line that does not fit the buffer. */
  method Grep(re: string, input: string, sizes: seq<nat>) returns (out: string)
    requires forall i :: 0 <= i < |input| ==> input[i] != '\0'
    ensures out == Output(Hits(re), input)
  {
    var buf := new char[BUF];
    var m, pos, k := 0, 0, 0;
    out := [];
    WrittenNothing(Hits(re), input);
    while true
      invariant m <= pos <= |input| && m < BUF && Holds(buf[..], input, pos - m, 0, m)
                && forall i :: 0 <= i < m ==> buf[i] != '\n'
      invariant Written(out, Hits(re), input, pos - m)
      decreases |input| - pos
    {
      var n := ReadSize(if k < |sizes| then sizes[k] else 0, BUF - m - 1, |input| - pos);
      if n == 0 {
        break;
      }
      m, out := TakePiece(re, buf, m, input, pos, n, out);
      pos, k := pos + n, k + 1;
    }
    EndOfInput(Hits(re), input, buf[..], pos, m);
    WrittenAll(out, Hits(re), input, pos - m);
  }

  lemma EndOfInput(hit: string -> bool, input: string, buf: seq<char>, pos: nat, m: nat)
    requires m <= pos <= |input| && Holds(buf, input, pos - m, 0, m) && (forall i :: 0 <= i < m ==> buf[i] != '\n')
    requires m == BUF - 1 || pos == |input|
    ensures Output(hit, input[pos - m..]) == []
  {
    var rest := input[pos - m..];
    forall i | 0 <= i < m ensures rest[i] != '\n' {
      assert buf[i] == input[pos - m + i];
    }
    NothingLeft(hit, rest, m);
  }
}
