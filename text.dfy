/**
 * The handful of Rust standard-library string operations that the library
 * relies on, written out so that their behaviour is part of the model:
 * ASCII case folding, `str::split` on one character, `join`, `str::lines`
 * and `u8::from_str`.
 */
module Text {

  datatype Option<T> = None | Some(value: T)

  datatype Result<T, E> = Ok(value: T) | Err(error: E)

  /** `char::to_ascii_lowercase`: A-Z map to a-z, every other character is kept. */
  function LowerChar(c: char): (d: char)
    ensures !('A' <= d <= 'Z')
    ensures !('A' <= c <= 'Z') ==> d == c
    ensures 'A' <= c <= 'Z' ==> d as int == c as int + 32
  {
    if 'A' <= c <= 'Z' then (c as int + 32) as char else c
  }

  predicate IsLower(s: string) {
    forall i :: 0 <= i < |s| ==> !('A' <= s[i] <= 'Z')
  }

  /** `str::to_ascii_lowercase`, character by character. */
  function AsciiLower(s: string): (r: string)
    ensures |r| == |s| && IsLower(r)
    ensures forall i :: 0 <= i < |s| ==> r[i] == LowerChar(s[i])
  {
    seq(|s|, i requires 0 <= i < |s| => LowerChar(s[i]))
  }

  /** A string without upper-case ASCII letters is its own lower-case form. */
  lemma LowerOfLower(s: string)
    requires IsLower(s)
    ensures AsciiLower(s) == s
  {
  }

  /** Concatenations of strings without upper-case letters have none either. */
  lemma LowerConcat(x: string, y: string)
    requires IsLower(x) && IsLower(y)
    ensures IsLower(x + y)
  {
    var s := x + y;
    assert forall i :: 0 <= i < |s| ==> s[i] == if i < |x| then x[i] else y[i - |x|];
  }

  /** Folding distributes over concatenation. */
  lemma LowerAppend(x: string, y: string)
    ensures AsciiLower(x + y) == AsciiLower(x) + AsciiLower(y)
  {
    var s := x + y;
    assert forall i :: 0 <= i < |s| ==> s[i] == if i < |x| then x[i] else y[i - |x|];
  }

  /** Folding twice is folding once. */
  lemma LowerIdempotent(s: string)
    ensures AsciiLower(AsciiLower(s)) == AsciiLower(s)
  {
    LowerOfLower(AsciiLower(s));
  }

  /** Index of the first occurrence of `c` in `s`, or `|s|` when there is none. */
  function IndexOf(s: string, c: char): (i: nat)
    ensures i <= |s|
    ensures i < |s| ==> s[i] == c
    ensures forall j :: 0 <= j < i ==> s[j] != c
    decreases |s|
  {
    if s == [] then 0
    else if s[0] == c then 0
    else 1 + IndexOf(s[1..], c)
  }

  lemma {:induction false} IndexOfAbsent(s: string, c: char)
    requires c !in s
    ensures IndexOf(s, c) == |s|
  {
  }

  /** The first occurrence of `c` in `x + [c] + y` is the one after `x`. */
  lemma IndexOfAfter(x: string, c: char, y: string)
    requires c !in x
    ensures IndexOf(x + [c] + y, c) == |x|
  {
    var s := x + [c] + y;
    assert s[|x|] == c;
    assert forall j :: 0 <= j < |x| ==> s[j] == x[j];
  }

  /** `str::split(sep)`: the pieces between separators; always at least one. */
  function Split(s: string, sep: char): (parts: seq<string>)
    ensures |parts| >= 1
    ensures forall k :: 0 <= k < |parts| ==> sep !in parts[k]
    decreases |s|
  {
    var i := IndexOf(s, sep);
    if i == |s| then [s] else [s[..i]] + Split(s[i + 1..], sep)
  }

  /**
   * `[&str]::join(sep)`: the pieces in order with `sep` between neighbours;
   * the first piece starts the result.
   */
  function Join(parts: seq<string>, sep: string): (r: string)
    ensures parts == [] ==> r == ""
    ensures |parts| == 1 ==> r == parts[0]
    ensures |parts| >= 1 ==> parts[0] <= r
    decreases |parts|
  {
    if |parts| == 0 then ""
    else if |parts| == 1 then parts[0]
    else parts[0] + sep + Join(parts[1..], sep)
  }

  /** Joining a piece in front of a non-empty list puts one separator between them. */
  lemma JoinCons(x: string, rest: seq<string>, sep: string)
    requires rest != []
    ensures Join([x] + rest, sep) == x + sep + Join(rest, sep)
  {
    assert ([x] + rest)[1..] == rest;
  }

  lemma SplitAround(s: string, i: nat)
    requires i < |s|
    ensures s == s[..i] + [s[i]] + s[i + 1..]
  {
  }

  /** Splitting and re-joining with the same separator gives the input back. */
  lemma {:induction false} JoinSplit(s: string, sep: char)
    ensures Join(Split(s, sep), [sep]) == s
    decreases |s|
  {
    var i := IndexOf(s, sep);
    if i < |s| {
      var head, tail := s[..i], s[i + 1..];
      assert Split(s, sep) == [head] + Split(tail, sep);
      JoinSplit(tail, sep);
      var rest := Split(tail, sep);
      JoinCons(head, rest, [sep]);
      SplitAround(s, i);
    } else {
      assert Split(s, sep) == [s];
    }
  }

  /** Joining pieces that do not contain the separator and splitting again gives the pieces back. */
  lemma {:induction false} SplitJoin(parts: seq<string>, sep: char)
    requires |parts| >= 1
    requires forall k :: 0 <= k < |parts| ==> sep !in parts[k]
    ensures Split(Join(parts, [sep]), sep) == parts
    decreases |parts|
  {
    if |parts| == 1 {
      IndexOfAbsent(parts[0], sep);
    } else {
      var rest := Join(parts[1..], [sep]);
      var s := parts[0] + [sep] + rest;
      assert Join(parts, [sep]) == s;
      var i := |parts[0]|;
      IndexOfAfter(parts[0], sep, rest);
      assert s[..i] == parts[0];
      assert s[i + 1..] == rest;
      assert Split(s, sep) == [parts[0]] + Split(rest, sep);
      SplitJoin(parts[1..], sep);
      assert parts == [parts[0]] + parts[1..];
    }
  }

  /** Joining lower-case pieces with a lower-case separator gives a lower-case string. */
  lemma {:induction false} JoinLower(parts: seq<string>, sep: string)
    requires forall k :: 0 <= k < |parts| ==> IsLower(parts[k])
    requires IsLower(sep)
    ensures IsLower(Join(parts, sep))
    decreases |parts|
  {
    if |parts| > 1 {
      JoinLower(parts[1..], sep);
      LowerConcat(parts[0], sep);
      LowerConcat(parts[0] + sep, Join(parts[1..], sep));
    }
  }

  /** `str::lines` drops one '\r' that stands right before a '\n'. */
  function StripCr(line: string): (r: string)
    ensures r == line || (line == r + ['\r'])
    ensures line != [] && line[|line| - 1] != '\r' ==> r == line
  {
    if |line| > 0 && line[|line| - 1] == '\r' then line[..|line| - 1] else line
  }

  /**
   * `str::lines`: pieces between '\n' line endings (a "\r\n" ending counts as
   * one), no piece for an empty input or after a final line ending.
   */
  function Lines(s: string): (ls: seq<string>)
    ensures forall k :: 0 <= k < |ls| ==> '\n' !in ls[k]
    ensures s == [] <==> ls == []
    decreases |s|
  {
    if s == [] then []
    else
      var i := IndexOf(s, '\n');
      if i == |s| then [s] else [StripCr(s[..i])] + Lines(s[i + 1..])
  }

  /** A line without a line feed that does not end in a carriage return. */
  predicate PlainLine(line: string) {
    '\n' !in line && (line == [] || line[|line| - 1] != '\r')
  }

  /**
   * Lines written one per line, the last one non-empty, are read back
   * exactly, in order.
   */
  lemma {:induction false} LinesJoin(ls: seq<string>)
    requires forall k :: 0 <= k < |ls| ==> PlainLine(ls[k])
    requires ls != [] ==> ls[|ls| - 1] != []
    ensures Lines(Join(ls, "\n")) == ls
    decreases |ls|
  {
    if |ls| == 1 {
      IndexOfAbsent(ls[0], '\n');
    } else if |ls| > 1 {
      var rest := Join(ls[1..], "\n");
      var s := ls[0] + ['\n'] + rest;
      assert Join(ls, "\n") == s;
      IndexOfAfter(ls[0], '\n', rest);
      assert s[..|ls[0]|] == ls[0];
      assert s[|ls[0]| + 1..] == rest;
      LinesJoin(ls[1..]);
    }
  }

  /** Each line followed by its own line feed, as a file written line by line ends. */
  function Terminated(ls: seq<string>): (r: string)
    ensures ls == [] <==> r == []
    ensures r != [] ==> r[|r| - 1] == '\n'
    decreases |ls|
  {
    if ls == [] then "" else ls[0] + "\n" + Terminated(ls[1..])
  }

  /**
   * Lines each followed by a line feed, the last one included, are read back
   * exactly, in order: `str::lines` yields no piece after a final line ending.
   */
  lemma {:induction false} TerminatedLines(ls: seq<string>)
    requires forall k :: 0 <= k < |ls| ==> PlainLine(ls[k])
    ensures Lines(Terminated(ls)) == ls
    decreases |ls|
  {
    if ls != [] {
      var rest := Terminated(ls[1..]);
      var s := ls[0] + ['\n'] + rest;
      assert Terminated(ls) == s;
      IndexOfAfter(ls[0], '\n', rest);
      assert s[..|ls[0]|] == ls[0];
      assert s[|ls[0]| + 1..] == rest;
      TerminatedLines(ls[1..]);
    }
  }

  lemma NotInSlices(s: string, c: char, i: nat)
    requires c !in s && i < |s|
    ensures c !in s[..i] && c !in s[i + 1..]
  {
    var head, tail := s[..i], s[i + 1..];
    assert forall j :: 0 <= j < |head| ==> head[j] == s[j];
    assert forall j :: 0 <= j < |tail| ==> tail[j] == s[i + 1 + j];
  }

  /** One step of `Lines` on text that contains a line feed. */
  lemma LinesStep(s: string)
    requires '\r' !in s && '\n' in s
    ensures var i := IndexOf(s, '\n');
            i < |s| && s == s[..i] + "\n" + s[i + 1..] &&
            Lines(s) == [s[..i]] + Lines(s[i + 1..]) && '\r' !in s[i + 1..]
  {
    var i := IndexOf(s, '\n');
    assert i < |s| && s[i] == '\n';
    NotInSlices(s, '\r', i);
    var line := s[..i];
    SplitAround(s, i);
    assert StripCr(line) == line by {
      assert line == [] || line[|line| - 1] == s[i - 1];
    }
  }

  /**
   * Text without carriage returns and without a final line ending is the
   * re-join of its lines.
   */
  lemma {:induction false} JoinLines(s: string)
    requires '\r' !in s
    requires s != [] ==> s[|s| - 1] != '\n'
    ensures Join(Lines(s), "\n") == s
    decreases |s|
  {
    if s != [] {
      if '\n' in s {
        LinesStep(s);
        var i := IndexOf(s, '\n');
        var tail := s[i + 1..];
        assert tail != [] && tail[|tail| - 1] == s[|s| - 1];
        JoinLines(tail);
        JoinCons(s[..i], Lines(tail), "\n");
      } else {
        IndexOfAbsent(s, '\n');
      }
    }
  }

  predicate IsDigit(c: char) { '0' <= c <= '9' }

  predicate AllDigits(s: string) {
    forall i :: 0 <= i < |s| ==> IsDigit(s[i])
  }

  /** Decimal value of a digit string, most significant digit first. */
  function DecimalValue(s: string): nat
    requires AllDigits(s)
    decreases |s|
  {
    if s == [] then 0
    else DecimalValue(s[..|s| - 1]) * 10 + (s[|s| - 1] as int - '0' as int)
  }

  /**
   * `u8::from_str`: an optional leading '+', then at least one decimal
   * digit (leading zeros allowed), value at most 255.
   */
  function ParseU8(s: string): (r: Option<nat>)
    ensures r.Some? ==> r.value <= 255
    ensures r.Some? <==> (s != [] && s != "+" &&
                          var digits := if s[0] == '+' then s[1..] else s;
                          AllDigits(digits) && DecimalValue(digits) <= 255)
    ensures r.Some? ==> r.value == DecimalValue(if s[0] == '+' then s[1..] else s)
  {
    if s == [] || s == "+" then None
    else
      var digits := if s[0] == '+' then s[1..] else s;
      if AllDigits(digits) && DecimalValue(digits) <= 255 then Some(DecimalValue(digits)) else None
  }

  /** A string that parses as `u8` is non-empty and contains no '.', '*' or upper-case letter. */
  lemma ParsedU8Shape(s: string)
    requires ParseU8(s).Some?
    ensures s != [] && '.' !in s && '*' !in s && IsLower(s)
    ensures IsDigit(s[|s| - 1])
  {
    var digits := if s[0] == '+' then s[1..] else s;
    assert forall i :: 0 < i < |s| ==> s[i] == digits[if s[0] == '+' then i - 1 else i];
    assert IsDigit(s[|s| - 1]);
  }

  /** `u8::from_str` accepts a leading '+' and leading zeros. */
  lemma ParseU8AcceptsSignAndZeros()
    ensures ParseU8("+7") == Some(7)
    ensures ParseU8("007") == Some(7)
  {
    assert "+7"[1..] == "7";
    assert DecimalValue("7") == 7 by { assert "7"[..0] == ""; }
    assert "007"[..2] == "00" && "00"[..1] == "0" && "0"[..0] == "";
    assert DecimalValue("007") == 7;
  }

  /** `u8::from_str` rejects values above 255, the empty string, a lone sign and '-'. */
  lemma ParseU8Rejects()
    ensures ParseU8("256") == None
    ensures ParseU8("") == None && ParseU8("+") == None && ParseU8("-1") == None
  {
    assert "256"[..2] == "25" && "25"[..1] == "2" && "2"[..0] == "";
    assert DecimalValue("256") == 256;
    assert !IsDigit("-1"[0]);
  }
}
