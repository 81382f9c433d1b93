/** The prompt helper `format_numbered_list` (learn.py), which renders the constraint list that
    every prompt carries. */
module Prompt {
  import opened Text

  /** The `i`-th line, counting from one as `enumerate` plus one does. */
  function NumberedLine(i: nat, item: string): (r: string)
    ensures NatToString(i + 1) + ". " <= r
    ensures |r| == |NatToString(i + 1)| + 2 + |item| && r[|r| - |item|..] == item
  {
    NatToString(i + 1) + ". " + item
  }

  function NumberedLines(items: seq<string>): (lines: seq<string>)
    ensures |lines| == |items|
  {
    seq(|items|, i requires 0 <= i < |items| => NumberedLine(i, items[i]))
  }

  /** `format_numbered_list`: the numbered lines joined by line feeds. No items give the empty
      text; otherwise the text opens with the first line, numbered 1. */
  function FormatNumberedList(items: seq<string>): (r: string)
    ensures r == "" <==> items == []
    ensures items != [] ==> "1. " + items[0] <= r
  {
    var lines := NumberedLines(items);
    if items == [] then ""
    else
      JoinStartsWithFirst("\n", lines);
      assert NatToString(1) == "1";
      Join("\n", lines)
  }

  /** For items without line feeds the text has one line per item: splitting it at the line
      feeds gives back item `i` behind the number `i + 1`, and the number reads back as `i + 1`. */
  lemma {:induction false} NumberedListLines(items: seq<string>)
    requires |items| >= 1
    requires forall k :: 0 <= k < |items| ==> '\n' !in items[k]
    ensures var lines := Split(FormatNumberedList(items), '\n');
      && |lines| == |items|
      && forall i :: 0 <= i < |items| ==> lines[i] == NatToString(i + 1) + ". " + items[i]
    ensures Count('\n', FormatNumberedList(items)) == |items| - 1
  {
    var lines := NumberedLines(items);
    forall k | 0 <= k < |lines|
      ensures '\n' !in lines[k]
    {
      var num := NatToString(k + 1);
      assert lines[k] == num + ". " + items[k];
      assert '\n' !in num by {
        forall j | 0 <= j < |num| ensures num[j] != '\n' {
          assert IsDigit(num[j]);
        }
      }
    }
    SplitJoin(lines, '\n');
    JoinCount(lines, '\n');
  }

  /** The number in front of line `i` is the decimal rendering of `i + 1`: a run of digits, so
      the first '.' of the line ends it. */
  lemma NumberReadsBack(items: seq<string>, i: nat)
    requires i < |items|
    ensures var line, num := NumberedLines(items)[i], NatToString(i + 1);
      && num + ". " <= line
      && '.' !in num
      && DigitsValue(num) == i + 1
  {
    var num := NatToString(i + 1);
    NatToStringValue(i + 1);
    forall j | 0 <= j < |num| ensures num[j] != '.' {
      assert IsDigit(num[j]);
    }
  }
}
