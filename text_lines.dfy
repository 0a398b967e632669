/**
 * The text the result document is made of: integers written in decimal as
 * JavaScript's string concatenation writes them, and lines joined by and
 * split at newline characters.
 */
module TextLines {

  function DigitChar(d: nat): (c: char)
    requires d < 10
    ensures '0' <= c <= '9' && (c as int) - ('0' as int) == d
  {
    ['0', '1', '2', '3', '4', '5', '6', '7', '8', '9'][d]
  }

  /** The decimal value of a string of digits. */
  function DigitsValue(s: string): int
    decreases |s|
  {
    if s == [] then 0
    else DigitsValue(s[..|s| - 1]) * 10 + ((s[|s| - 1] as int) - ('0' as int))
  }

  /** A natural number in decimal, without leading zeros. */
  function NatToString(n: nat): (r: string)
    ensures r != [] && forall c | c in r :: '0' <= c <= '9'
    ensures |r| > 1 ==> r[0] != '0'
    ensures DigitsValue(r) == n
    decreases n
  {
    if n < 10 then [DigitChar(n)]
    else
      var r := NatToString(n / 10) + [DigitChar(n % 10)];
      assert r[..|r| - 1] == NatToString(n / 10);
      r
  }

  /** An integer in decimal, with a leading minus sign when negative. */
  function IntToString(n: int): (r: string)
    ensures r != [] && '\n' !in r && '"' !in r
    ensures n >= 0 ==> r == NatToString(n)
    ensures n < 0 ==> r == "-" + NatToString(-n)
  {
    if n < 0 then "-" + NatToString(-n) else NatToString(n)
  }

  /** ` name="value"` for each attribute, in order. */
  function Attributes(attrs: seq<(string, string)>): string
    decreases |attrs|
  {
    if attrs == [] then ""
    else " " + attrs[0].0 + "=\"" + attrs[0].1 + "\"" + Attributes(attrs[1..])
  }

  /** An empty XML element, `<name name1="value1" .../>`, after an indentation. */
  function EmptyElement(indent: string, name: string, attrs: seq<(string, string)>): string {
    indent + "<" + name + Attributes(attrs) + "/>"
  }

  predicate NoNewlineInAttributes(attrs: seq<(string, string)>) {
    forall k | 0 <= k < |attrs| :: '\n' !in attrs[k].0 && '\n' !in attrs[k].1
  }

  lemma {:induction false} AttributesNoNewline(attrs: seq<(string, string)>)
    requires NoNewlineInAttributes(attrs)
    ensures '\n' !in Attributes(attrs)
    decreases |attrs|
  {
    if attrs != [] {
      assert NoNewlineInAttributes(attrs[1..]) by {
        forall k | 0 <= k < |attrs| - 1 ensures '\n' !in attrs[1..][k].0 && '\n' !in attrs[1..][k].1 {
          assert attrs[1..][k] == attrs[k + 1];
        }
      }
      AttributesNoNewline(attrs[1..]);
    }
  }

  /** An element stays on one line when its indentation, name and attributes do. */
  lemma EmptyElementNoNewline(indent: string, name: string, attrs: seq<(string, string)>)
    requires '\n' !in indent && '\n' !in name && NoNewlineInAttributes(attrs)
    ensures '\n' !in EmptyElement(indent, name, attrs)
  {
    AttributesNoNewline(attrs);
  }

  /** Lines, each followed by a newline. */
  function Terminated(lines: seq<string>): string
    decreases |lines|
  {
    if lines == [] then "" else lines[0] + "\n" + Terminated(lines[1..])
  }

  /** Lines joined by newlines, the last one without a newline after it. */
  function Join(lines: seq<string>): string
    requires lines != []
  {
    Terminated(lines[..|lines| - 1]) + lines[|lines| - 1]
  }

  /**
   * The pieces of `s` between newline characters, the first one prefixed by
   * `current` (text already read of the first piece). Splitting at `k`
   * newlines gives `k + 1` pieces.
   */
  function Split(s: string, current: string): (r: seq<string>)
    ensures r != []
    decreases |s|
  {
    if s == [] then [current]
    else if s[0] == '\n' then [current] + Split(s[1..], "")
    else Split(s[1..], current + [s[0]])
  }

  predicate NoNewline(lines: seq<string>) {
    forall k | 0 <= k < |lines| :: '\n' !in lines[k]
  }

  lemma {:induction false} TerminatedAppend(lines: seq<string>, line: string)
    ensures Terminated(lines + [line]) == Terminated(lines) + line + "\n"
    decreases |lines|
  {
    if lines != [] {
      assert (lines + [line])[1..] == lines[1..] + [line];
      TerminatedAppend(lines[1..], line);
    }
  }

  lemma {:induction false} TerminatedConcat(a: seq<string>, b: seq<string>)
    ensures Terminated(a + b) == Terminated(a) + Terminated(b)
    decreases |a|
  {
    if a == [] {
      assert a + b == b;
    } else {
      assert (a + b)[1..] == a[1..] + b;
      TerminatedConcat(a[1..], b);
    }
  }

  /** Reading a line without a newline in it adds it to the current piece. */
  lemma {:induction false} SplitLine(line: string, rest: string, current: string)
    requires '\n' !in line
    ensures Split(line + rest, current) == Split(rest, current + line)
    decreases |line|
  {
    if line == [] {
      assert line + rest == rest && current + line == current;
    } else {
      assert (line + rest)[0] == line[0];
      assert (line + rest)[1..] == line[1..] + rest;
      SplitLine(line[1..], rest, current + [line[0]]);
      assert current + [line[0]] + line[1..] == current + line;
    }
  }

  /** Splitting joined lines gives the lines back, when none holds a newline. */
  lemma {:induction false} SplitJoin(lines: seq<string>)
    requires lines != [] && NoNewline(lines)
    ensures Split(Join(lines), "") == lines
    decreases |lines|
  {
    var last := |lines| - 1;
    if last == 0 {
      SplitLine(lines[0], "", "");
      assert lines[0] + "" == lines[0];
    } else {
      var rest := lines[1..];
      assert NoNewline(rest) by {
        forall k | 0 <= k < |rest| ensures '\n' !in rest[k] {
          assert rest[k] == lines[k + 1];
        }
      }
      assert lines[..last] == [lines[0]] + rest[..|rest| - 1];
      assert Terminated(lines[..last]) == lines[0] + "\n" + Terminated(rest[..|rest| - 1]);
      assert Join(lines) == lines[0] + ("\n" + Join(rest));
      SplitLine(lines[0], "\n" + Join(rest), "");
      assert ("\n" + Join(rest))[1..] == Join(rest);
      SplitJoin(rest);
      assert "" + lines[0] == lines[0];
      assert lines == [lines[0]] + rest;
    }
  }
}
