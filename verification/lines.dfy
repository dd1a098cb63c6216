/** The `lines` helper of the bot utilities and the `split('\n')` it is undone by. */
module Lines {

  const NewLine: char := '\n'

  predicate NoNewLine(s: string) {
    forall i :: 0 <= i < |s| ==> s[i] != NewLine
  }

  function TotalLength(ls: seq<string>): nat {
    if ls == [] then 0 else |ls[0]| + TotalLength(ls[1..])
  }

  /** `lines(...ls)`: the arguments joined with one line break between neighbours. */
  function Join(ls: seq<string>): (r: string)
    ensures |ls| == 0 ==> r == ""
    ensures |ls| >= 1 ==> |r| == TotalLength(ls) + |ls| - 1
    ensures |ls| >= 1 ==> r[..|ls[0]|] == ls[0]
    ensures |ls| >= 2 ==> r[|ls[0]|] == NewLine && r[|ls[0]| + 1..] == Join(ls[1..])
  {
    if |ls| == 0 then ""
    else if |ls| == 1 then ls[0]
    else ls[0] + [NewLine] + Join(ls[1..])
  }

  /** `s.split('\n')`: the pieces of `s` between line breaks, never empty. */
  function Split(s: string): (r: seq<string>)
    ensures |r| >= 1
  {
    if s == [] then [""]
    else
      var rest := Split(s[1..]);
      if s[0] == NewLine then [""] + rest
      else [[s[0]] + rest[0]] + rest[1..]
  }

  /** `s.split('\n')[0]`: everything before the first line break. */
  function FirstLine(s: string): string {
    Split(s)[0]
  }

  /** Splitting after a break-free prefix yields that prefix as the first piece. */
  lemma {:induction false} SplitAfterLine(a: string, b: string)
    requires NoNewLine(a)
    ensures Split(a + [NewLine] + b) == [a] + Split(b)
  {
    if a == [] {
      assert a + [NewLine] + b == [NewLine] + b;
      assert ([NewLine] + b)[1..] == b;
    } else {
      assert (a + [NewLine] + b)[1..] == a[1..] + [NewLine] + b;
      SplitAfterLine(a[1..], b);
      assert [a[0]] + a[1..] == a;
    }
  }

  /** A break-free string is one piece. */
  lemma {:induction false} SplitNoNewLine(a: string)
    requires NoNewLine(a)
    ensures Split(a) == [a]
  {
    if a != [] {
      SplitNoNewLine(a[1..]);
      assert [a[0]] + a[1..] == a;
    }
  }

  /** `split('\n')` undoes `lines` when no argument holds a line break. */
  lemma {:induction false} SplitJoin(ls: seq<string>)
    requires |ls| >= 1
    requires forall i :: 0 <= i < |ls| ==> NoNewLine(ls[i])
    ensures Split(Join(ls)) == ls
  {
    if |ls| == 1 {
      SplitNoNewLine(ls[0]);
    } else {
      SplitJoin(ls[1..]);
      SplitAfterLine(ls[0], Join(ls[1..]));
      assert [ls[0]] + ls[1..] == ls;
    }
  }

  /** The first line of `lines(a, ...)` is `a` itself, whatever the later arguments hold. */
  lemma FirstLineOfJoin(ls: seq<string>)
    requires |ls| >= 1 && NoNewLine(ls[0])
    ensures FirstLine(Join(ls)) == ls[0]
  {
    if |ls| == 1 {
      SplitNoNewLine(ls[0]);
    } else {
      SplitAfterLine(ls[0], Join(ls[1..]));
    }
  }

  /** The first line never holds a line break and is a prefix of the text. */
  lemma {:induction false} FirstLineIsPrefix(s: string)
    ensures NoNewLine(FirstLine(s))
    ensures |FirstLine(s)| <= |s| && s[..|FirstLine(s)|] == FirstLine(s)
    ensures |FirstLine(s)| < |s| ==> s[|FirstLine(s)|] == NewLine
  {
    if s != [] {
      FirstLineIsPrefix(s[1..]);
    }
  }
}
