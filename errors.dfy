/** Error kinds and stack-trace clean-up (lib/errors.js). */
module Errors {

  /** What can be thrown: the library's two error kinds, or anything a
      user's property throws or the engine raises. */
  datatype Exception =
    | GentestError(message: string)
    | FailureError(message: string)
    | OtherException(name: string, message: string)

  /** The argument of `cleanupStack`, which need not be a string. */
  datatype StackValue<V> = Text(s: string) | NotText(v: V)

  // ---------------------------------------------------------------------------
  // Lines

  /** `str.split(/\n/)`. */
  function Split(s: string): (r: seq<string>)
    ensures |r| >= 1
    ensures forall i :: 0 <= i < |r| ==> '\n' !in r[i]
  {
    if s == [] then [[]]
    else
      var rest := Split(s[1..]);
      if s[0] == '\n' then [[]] + rest
      else [[s[0]] + rest[0]] + rest[1..]
  }

  /** `lines.join('\n')`. */
  function Join(lines: seq<string>): string
  {
    if lines == [] then []
    else if |lines| == 1 then lines[0]
    else lines[0] + ['\n'] + Join(lines[1..])
  }

  /** Joining the pieces of a split gives back the string. */
  lemma {:induction false} JoinSplit(s: string)
    ensures Join(Split(s)) == s
  {
    if s != [] {
      var rest := Split(s[1..]);
      JoinSplit(s[1..]);
      if s[0] == '\n' {
        assert Split(s) == [[]] + rest;
        assert Join(Split(s)) == [] + ['\n'] + Join(rest);
        assert s == [s[0]] + s[1..];
      } else {
        assert Split(s) == [[s[0]] + rest[0]] + rest[1..];
        if |rest| == 1 {
          assert s == [s[0]] + rest[0];
        } else {
          assert Join(rest) == rest[0] + ['\n'] + Join(rest[1..]);
          assert Join(Split(s)) == [s[0]] + rest[0] + ['\n'] + Join(rest[1..]);
          assert s == [s[0]] + s[1..];
        }
      }
    }
  }

  lemma {:induction false} SplitNoNewline(a: string)
    requires '\n' !in a
    ensures Split(a) == [a]
  {
    if a != [] {
      SplitNoNewline(a[1..]);
      assert [a[0]] + a[1..] == a;
    }
  }

  lemma {:induction false} SplitAfterLine(a: string, b: string)
    requires '\n' !in a
    ensures Split(a + ['\n'] + b) == [a] + Split(b)
  {
    if a == [] {
      assert a + ['\n'] + b == ['\n'] + b;
      assert (['\n'] + b)[1..] == b;
    } else {
      var s := a + ['\n'] + b;
      assert s[0] == a[0];
      assert s[1..] == a[1..] + ['\n'] + b;
      SplitAfterLine(a[1..], b);
      assert [a[0]] + a[1..] == a;
    }
  }

  /** Splitting a join of newline-free lines gives back the lines. */
  lemma {:induction false} SplitJoin(lines: seq<string>)
    requires |lines| >= 1
    requires forall i :: 0 <= i < |lines| ==> '\n' !in lines[i]
    ensures Split(Join(lines)) == lines
  {
    if |lines| == 1 {
      SplitNoNewline(lines[0]);
    } else {
      SplitJoin(lines[1..]);
      SplitAfterLine(lines[0], Join(lines[1..]));
      assert [lines[0]] + lines[1..] == lines;
    }
  }

  // ---------------------------------------------------------------------------
  // cleanupStack

  /** The first index at or after `i` whose line is not library code, or the
      number of lines if there is none. */
  function FirstOwnLine(lines: seq<string>, isLibraryCode: string -> bool, i: nat): (k: nat)
    requires i <= |lines|
    ensures i <= k <= |lines|
    ensures forall j :: i <= j < k ==> isLibraryCode(lines[j])
    ensures k < |lines| ==> !isLibraryCode(lines[k])
    decreases |lines| - i
  {
    if i < |lines| && isLibraryCode(lines[i]) then FirstOwnLine(lines, isLibraryCode, i + 1) else i
  }

  /** The lines `cleanupStack` keeps: the first, then everything from the
      first later line that is not library code. */
  function KeptLines(lines: seq<string>, isLibraryCode: string -> bool): (r: seq<string>)
    requires |lines| >= 1
    ensures 1 <= |r| <= |lines| && r[0] == lines[0]
    ensures |r| >= 2 ==> !isLibraryCode(r[1])
    ensures forall i :: 1 <= i < |r| ==> r[i] == lines[|lines| - |r| + i]
    ensures forall j :: 1 <= j < |lines| - |r| + 1 ==> isLibraryCode(lines[j])
  {
    [lines[0]] + lines[FirstOwnLine(lines, isLibraryCode, 1)..]
  }

  /** `cleanupStack`: non-strings pass through; a string loses the library
      lines that directly follow its first line. */
  function CleanupStack<V>(str: StackValue<V>, isLibraryCode: string -> bool): (r: StackValue<V>)
    ensures str.NotText? ==> r == str
    ensures str.Text? ==> r.Text?
  {
    match str
    case NotText(_) => str
    case Text(s) => Text(Join(KeptLines(Split(s), isLibraryCode)))
  }

  /** The `while` loop as written: `i` advances over library lines. */
  method CleanupStackLoop<V>(str: StackValue<V>, isLibraryCode: string -> bool) returns (r: StackValue<V>)
    ensures r == CleanupStack(str, isLibraryCode)
  {
    if str.NotText? {
      return str;
    }
    var lines := Split(str.s);
    var i := 1;
    while i < |lines| && isLibraryCode(lines[i])
      invariant 1 <= i <= |lines|
      invariant FirstOwnLine(lines, isLibraryCode, 1) == FirstOwnLine(lines, isLibraryCode, i)
      decreases |lines| - i
    {
      i := i + 1;
    }
    r := Text(Join([lines[0]] + lines[i..]));
  }

  /** The lines of the cleaned-up string are exactly the kept lines. */
  lemma CleanupLines<V>(s: string, isLibraryCode: string -> bool)
    ensures Split(CleanupStack(StackValue<V>.Text(s), isLibraryCode).s) == KeptLines(Split(s), isLibraryCode)
  {
    var kept := KeptLines(Split(s), isLibraryCode);
    assert forall i :: 0 <= i < |kept| ==> '\n' !in kept[i];
    SplitJoin(kept);
  }

  /** The first line always survives, and the second line of the result, if
      any, is not library code. */
  lemma CleanupFirstAndSecondLine<V>(s: string, isLibraryCode: string -> bool)
    ensures var out := Split(CleanupStack(StackValue<V>.Text(s), isLibraryCode).s);
            && out[0] == Split(s)[0]
            && (|out| >= 2 ==> !isLibraryCode(out[1]))
  {
    CleanupLines<V>(s, isLibraryCode);
  }

  /** A single-line string is returned unchanged. */
  lemma CleanupSingleLine<V>(s: string, isLibraryCode: string -> bool)
    requires |Split(s)| == 1
    ensures CleanupStack(StackValue<V>.Text(s), isLibraryCode) == StackValue<V>.Text(s)
  {
    assert KeptLines(Split(s), isLibraryCode) == Split(s);
    JoinSplit(s);
  }

  /** Cleaning up twice is the same as once. */
  lemma CleanupIdempotent<V>(str: StackValue<V>, isLibraryCode: string -> bool)
    ensures CleanupStack(CleanupStack(str, isLibraryCode), isLibraryCode) == CleanupStack(str, isLibraryCode)
  {
    if str.Text? {
      var once := CleanupStack(str, isLibraryCode);
      CleanupLines<V>(str.s, isLibraryCode);
      var lines := Split(once.s);
      assert FirstOwnLine(lines, isLibraryCode, 1) == 1;
      assert KeptLines(lines, isLibraryCode) == lines;
      JoinSplit(once.s);
    }
  }
}
