/**
 * The VERSION-file scan that every Sphinx configuration of the documentation
 * repeats (doc/bridle/conf.py, doc/bridle-test-spec/conf.py,
 * doc/kconfig/conf.py, doc/lpnb/conf.py).
 *
 * The file is given as its sequence of lines (each still carrying its line
 * terminator, as Python's file iterator yields them), or `None` when it cannot
 * be opened.  A line is split at '=' with `split('=', 2)`, both halves are
 * stripped, and the two results are unpacked into `key, val`; any other number
 * of parts raises, and the surrounding `try` swallows the exception, which
 * ends the scan.  The `finally` clause then builds the version string or ends
 * the build with the file's own message.
 */
module VersionFile {

  import opened Wrappers

  // ---------------------------------------------------------------------------
  // Python string primitives
  // ---------------------------------------------------------------------------

  /** The characters `str.strip()` removes (Python's `str.isspace`). */
  predicate IsSpace(c: char) {
    || c == ' ' || ('\t' <= c <= '\r') || ('\U{1C}' <= c <= '\U{1F}')
    || c == '\U{85}' || c == '\U{A0}' || c == '\U{1680}'
    || ('\U{2000}' <= c <= '\U{200A}') || c == '\U{2028}' || c == '\U{2029}'
    || c == '\U{202F}' || c == '\U{205F}' || c == '\U{3000}'
  }

  predicate AllSpace(s: string) {
    forall i :: 0 <= i < |s| ==> IsSpace(s[i])
  }

  /** `s.lstrip()`: the suffix of `s` left after its leading whitespace. */
  function StripLeft(s: string): (r: string)
    ensures |r| <= |s| && r == s[|s| - |r|..]
    ensures AllSpace(s[..|s| - |r|])
    ensures |r| > 0 ==> !IsSpace(r[0])
    decreases |s|
  {
    if |s| > 0 && IsSpace(s[0]) then StripLeft(s[1..]) else s
  }

  /** `s.rstrip()`: the prefix of `s` left after its trailing whitespace. */
  function StripRight(s: string): (r: string)
    ensures |r| <= |s| && r == s[..|r|]
    ensures AllSpace(s[|r|..])
    ensures |r| > 0 ==> !IsSpace(r[|r| - 1])
    decreases |s|
  {
    if |s| > 0 && IsSpace(s[|s| - 1]) then StripRight(s[..|s| - 1]) else s
  }

  /** `t` sits at position `i` of `s` with only whitespace around it. */
  predicate Padded(s: string, i: nat, t: string) {
    i + |t| <= |s| && s[i..i + |t|] == t && AllSpace(s[..i]) && AllSpace(s[i + |t|..])
  }

  /** Neither end of `t` is whitespace. */
  predicate Stripped(t: string) {
    |t| > 0 ==> !IsSpace(t[0]) && !IsSpace(t[|t| - 1])
  }

  /**
   * `s.strip()`: what is left of `s` between its leading and its trailing
   * whitespace; it neither starts nor ends with whitespace.
   */
  function Strip(s: string): (r: string)
    ensures exists i :: Padded(s, i, r)
    ensures Stripped(r)
  {
    var l := StripLeft(s);
    var r := StripRight(l);
    var i := |s| - |l|;
    assert Padded(s, i, r) by {
      assert l == s[i..];
      assert s[i + |r|..] == l[|r|..];
      assert s[i..i + |r|] == l[..|r|];
    }
    r
  }

  /** Whitespace in front of a word that starts with a non-space is removed by `lstrip`. */
  lemma {:induction false} StripLeftOfPadded(pad: string, x: string)
    requires AllSpace(pad)
    requires |x| == 0 || !IsSpace(x[0])
    ensures StripLeft(pad + x) == x
    decreases |pad|
  {
    if |pad| > 0 {
      assert (pad + x)[1..] == pad[1..] + x;
      StripLeftOfPadded(pad[1..], x);
    } else {
      assert pad + x == x;
    }
  }

  /** Whitespace behind a word that ends with a non-space is removed by `rstrip`. */
  lemma {:induction false} StripRightOfPadded(x: string, pad: string)
    requires AllSpace(pad)
    requires |x| == 0 || !IsSpace(x[|x| - 1])
    ensures StripRight(x + pad) == x
    decreases |pad|
  {
    if |pad| > 0 {
      assert (x + pad)[..|x + pad| - 1] == x + pad[..|pad| - 1];
      StripRightOfPadded(x, pad[..|pad| - 1]);
    } else {
      assert x + pad == x;
    }
  }

  /**
   * `strip` removes exactly the surrounding whitespace: a word with no
   * whitespace at either end, padded on both sides, strips back to itself.
   */
  lemma StripOfPadded(before: string, t: string, after: string)
    requires AllSpace(before) && AllSpace(after)
    requires |t| > 0 ==> !IsSpace(t[0]) && !IsSpace(t[|t| - 1])
    ensures Strip(before + t + after) == t
  {
    if |t| > 0 {
      assert before + t + after == before + (t + after);
      StripLeftOfPadded(before, t + after);
      StripRightOfPadded(t, after);
    } else {
      assert before + t + after == (before + after) + "";
      assert AllSpace(before + after) by {
        forall i | 0 <= i < |before + after|
          ensures IsSpace((before + after)[i])
        {
          if i < |before| { assert (before + after)[i] == before[i]; }
          else { assert (before + after)[i] == after[i - |before|]; }
        }
      }
      StripLeftOfPadded(before + after, "");
    }
  }

  /** The result of `strip` starts and ends with a non-space, so stripping again changes nothing. */
  lemma StripIdempotent(s: string)
    ensures Strip(Strip(s)) == Strip(s)
  {
    var t := Strip(s);
    var l := StripLeft(s);
    assert |t| > 0 ==> t[0] == l[0];
    StripOfPadded("", t, "");
    assert "" + t + "" == t;
  }

  /** The number of occurrences of `c` in `s`. */
  function Count(s: string, c: char): nat
    decreases |s|
  {
    if |s| == 0 then 0 else (if s[0] == c then 1 else 0) + Count(s[1..], c)
  }

  lemma {:induction false} CountAppend(a: string, b: string, c: char)
    ensures Count(a + b, c) == Count(a, c) + Count(b, c)
    decreases |a|
  {
    if |a| == 0 {
      assert a + b == b;
    } else {
      assert (a + b)[1..] == a[1..] + b;
      CountAppend(a[1..], b, c);
    }
  }

  lemma {:induction false} CountZero(s: string, c: char)
    ensures Count(s, c) == 0 <==> c !in s
    decreases |s|
  {
    if |s| > 0 {
      CountZero(s[1..], c);
      assert s == [s[0]] + s[1..];
    }
  }

  /** `s.find(c)`: the first position of `c` in `s`, `None` for -1. */
  function IndexOf(s: string, c: char): (r: Option<nat>)
    ensures r.Some? ==> r.value < |s| && s[r.value] == c && c !in s[..r.value]
    ensures r.None? ==> c !in s
    decreases |s|
  {
    if |s| == 0 then None
    else if s[0] == c then Some(0)
    else match IndexOf(s[1..], c)
      case None => (assert s == [s[0]] + s[1..]; None)
      case Some(k) => (assert s[..k + 1] == [s[0]] + s[1..][..k]; Some(k + 1))
  }

  /** The first occurrence of `c` in `a + [c] + b`, when `a` has none, is right after `a`. */
  lemma IndexOfAfterFree(a: string, c: char, b: string)
    requires c !in a
    ensures IndexOf(a + [c] + b, c) == Some(|a|)
  {
    var s := a + [c] + b;
    assert s[|a|] == c;
    assert s[..|a|] == a;
  }

  /** `sep.join(parts)`. */
  function Join(parts: seq<string>, sep: char): string
    decreases |parts|
  {
    if |parts| == 0 then ""
    else if |parts| == 1 then parts[0]
    else parts[0] + [sep] + Join(parts[1..], sep)
  }

  function Min(a: nat, b: nat): nat {
    if a <= b then a else b
  }

  /**
   * `s.split(sep, maxsplit)` for a single-character separator: at most
   * `maxsplit` splits, at the leftmost occurrences.
   */
  function Split(s: string, sep: char, maxsplit: nat): (parts: seq<string>)
    ensures |parts| >= 1
    decreases maxsplit
  {
    if maxsplit == 0 then [s]
    else match IndexOf(s, sep)
      case None => [s]
      case Some(k) => [s[..k]] + Split(s[k + 1..], sep, maxsplit - 1)
  }

  /** One split step: the part before the first separator, then the rest split once less. */
  lemma SplitAt(s: string, sep: char, maxsplit: nat, k: nat)
    requires maxsplit > 0 && IndexOf(s, sep) == Some(k)
    ensures Split(s, sep, maxsplit) == [s[..k]] + Split(s[k + 1..], sep, maxsplit - 1)
  {
  }

  /** Joining a part in front of a non-empty list puts one separator after it. */
  lemma JoinCons(head: string, rest: seq<string>, sep: char)
    requires |rest| >= 1
    ensures Join([head] + rest, sep) == head + [sep] + Join(rest, sep)
  {
    assert ([head] + rest)[1..] == rest;
  }

  /** Every part but the last is free of the separator: the splits are at the leftmost occurrences. */
  predicate SeparatorFreeHead(parts: seq<string>, sep: char) {
    forall i :: 0 <= i < |parts| - 1 ==> sep !in parts[i]
  }

  lemma SeparatorFreeStep(s: string, sep: char, maxsplit: nat, k: nat)
    requires maxsplit > 0 && IndexOf(s, sep) == Some(k)
    requires SeparatorFreeHead(Split(s[k + 1..], sep, maxsplit - 1), sep)
    ensures SeparatorFreeHead(Split(s, sep, maxsplit), sep)
  {
    SplitAt(s, sep, maxsplit, k);
    var rest := Split(s[k + 1..], sep, maxsplit - 1);
    forall i | 0 <= i < |Split(s, sep, maxsplit)| - 1
      ensures sep !in Split(s, sep, maxsplit)[i]
    {
      if i > 0 {
        assert Split(s, sep, maxsplit)[i] == rest[i - 1];
      }
    }
  }

  lemma {:induction false} SplitPartsAreSeparatorFree(s: string, sep: char, maxsplit: nat)
    ensures SeparatorFreeHead(Split(s, sep, maxsplit), sep)
    decreases maxsplit
  {
    if maxsplit == 0 || IndexOf(s, sep).None? {
      SplitWhole(s, sep, maxsplit);
    } else {
      var k := IndexOf(s, sep).value;
      SplitPartsAreSeparatorFree(s[k + 1..], sep, maxsplit - 1);
      SeparatorFreeStep(s, sep, maxsplit, k);
    }
  }

  /** A string is the part before position `k`, its character at `k`, and the part after. */
  lemma AroundPosition(s: string, k: nat)
    requires k < |s|
    ensures s[..k] + [s[k]] + s[k + 1..] == s
  {
  }

  lemma JoinSplitStep(s: string, sep: char, maxsplit: nat, k: nat)
    requires maxsplit > 0 && IndexOf(s, sep) == Some(k)
    requires Join(Split(s[k + 1..], sep, maxsplit - 1), sep) == s[k + 1..]
    ensures Join(Split(s, sep, maxsplit), sep) == s
  {
    var rest := Split(s[k + 1..], sep, maxsplit - 1);
    calc {
      Join(Split(s, sep, maxsplit), sep);
      == { SplitAt(s, sep, maxsplit, k); }
      Join([s[..k]] + rest, sep);
      == { JoinCons(s[..k], rest, sep); }
      s[..k] + [sep] + s[k + 1..];
      == { AroundPosition(s, k); }
      s;
    }
  }

  /** Splitting and joining again with the same separator gives back the string. */
  lemma {:induction false} JoinSplit(s: string, sep: char, maxsplit: nat)
    ensures Join(Split(s, sep, maxsplit), sep) == s
    decreases maxsplit
  {
    if maxsplit == 0 || IndexOf(s, sep).None? {
      SplitWhole(s, sep, maxsplit);
    } else {
      var k := IndexOf(s, sep).value;
      JoinSplit(s[k + 1..], sep, maxsplit - 1);
      JoinSplitStep(s, sep, maxsplit, k);
    }
  }

  /** Without a split to make, or without a separator, the string is the only part. */
  lemma SplitWhole(s: string, sep: char, maxsplit: nat)
    requires maxsplit == 0 || IndexOf(s, sep).None?
    ensures Split(s, sep, maxsplit) == [s]
  {
  }

  /** The first separator accounts for one occurrence; the rest lie after it. */
  lemma CountAfterFirst(s: string, sep: char, k: nat)
    requires IndexOf(s, sep) == Some(k)
    ensures Count(s, sep) == 1 + Count(s[k + 1..], sep)
  {
    assert s == s[..k] + ([sep] + s[k + 1..]);
    CountAppend(s[..k], [sep] + s[k + 1..], sep);
    CountAppend([sep], s[k + 1..], sep);
    CountZero(s[..k], sep);
    assert Count([sep], sep) == 1 by {
      assert [sep][1..] == [];
    }
  }

  lemma SplitCountWhole(s: string, sep: char, maxsplit: nat)
    requires maxsplit == 0 || IndexOf(s, sep).None?
    ensures |Split(s, sep, maxsplit)| == Min(Count(s, sep), maxsplit) + 1
  {
    SplitWhole(s, sep, maxsplit);
    CountZero(s, sep);
  }

  lemma SplitCountStep(s: string, sep: char, maxsplit: nat, k: nat)
    requires maxsplit > 0 && IndexOf(s, sep) == Some(k)
    requires |Split(s[k + 1..], sep, maxsplit - 1)| == Min(Count(s[k + 1..], sep), maxsplit - 1) + 1
    ensures |Split(s, sep, maxsplit)| == Min(Count(s, sep), maxsplit) + 1
  {
    SplitAt(s, sep, maxsplit, k);
    CountAfterFirst(s, sep, k);
  }

  /** A split makes one part more than the number of separators it uses. */
  lemma {:induction false} SplitCount(s: string, sep: char, maxsplit: nat)
    ensures |Split(s, sep, maxsplit)| == Min(Count(s, sep), maxsplit) + 1
    decreases maxsplit
  {
    if maxsplit == 0 || IndexOf(s, sep).None? {
      SplitCountWhole(s, sep, maxsplit);
    } else {
      var k := IndexOf(s, sep).value;
      SplitCount(s[k + 1..], sep, maxsplit - 1);
      SplitCountStep(s, sep, maxsplit, k);
    }
  }

  /** The parts `Join` may be handed back by `Split`: none of them holds the separator. */
  predicate SeparatorFree(parts: seq<string>, sep: char) {
    forall i :: 0 <= i < |parts| ==> sep !in parts[i]
  }

  lemma SplitJoinSingle(parts: seq<string>, sep: char, maxsplit: nat)
    requires |parts| == 1 && SeparatorFree(parts, sep)
    ensures Split(Join(parts, sep), sep, maxsplit) == parts
  {
    assert sep !in parts[0];
    assert Join(parts, sep) == parts[0];
    SplitWhole(parts[0], sep, maxsplit);
    assert [parts[0]] == parts;
  }

  lemma SplitJoinStep(parts: seq<string>, sep: char, maxsplit: nat)
    requires 2 <= |parts| <= maxsplit + 1 && SeparatorFree(parts, sep)
    requires Split(Join(parts[1..], sep), sep, maxsplit - 1) == parts[1..]
    ensures Split(Join(parts, sep), sep, maxsplit) == parts
  {
    var rest := Join(parts[1..], sep);
    JoinCons(parts[0], parts[1..], sep);
    assert [parts[0]] + parts[1..] == parts;
    assert sep !in parts[0];
    IndexOfAfterFree(parts[0], sep, rest);
    var s := parts[0] + [sep] + rest;
    SplitAt(s, sep, maxsplit, |parts[0]|);
    assert s[..|parts[0]|] == parts[0];
    assert s[|parts[0]| + 1..] == rest;
  }

  lemma SeparatorFreeTail(parts: seq<string>, sep: char)
    requires |parts| > 0 && SeparatorFree(parts, sep)
    ensures SeparatorFree(parts[1..], sep)
  {
    forall i | 0 <= i < |parts[1..]|
      ensures sep !in parts[1..][i]
    {
      assert parts[1..][i] == parts[i + 1];
    }
  }

  /** Joining separator-free parts and splitting again gives back the parts. */
  lemma {:induction false} SplitJoin(parts: seq<string>, sep: char, maxsplit: nat)
    requires 1 <= |parts| <= maxsplit + 1 && SeparatorFree(parts, sep)
    ensures Split(Join(parts, sep), sep, maxsplit) == parts
    decreases |parts|
  {
    if |parts| == 1 {
      SplitJoinSingle(parts, sep, maxsplit);
    } else {
      SeparatorFreeTail(parts, sep);
      SplitJoin(parts[1..], sep, maxsplit - 1);
      SplitJoinStep(parts, sep, maxsplit);
    }
  }

  // ---------------------------------------------------------------------------
  // One line of the file
  // ---------------------------------------------------------------------------

  /**
   * `key, val = [x.strip() for x in line.split('=', 2)]`: the stripped key and
   * value, or `None` where the unpacking raises.
   */
  function KeyValue(line: string): (r: Option<(string, string)>)
    ensures r.Some? <==> Count(line, '=') == 1
    ensures r.Some? ==> Stripped(r.value.0) && Stripped(r.value.1)
  {
    var parts := Split(line, '=', 2);
    SplitCount(line, '=', 2);
    if |parts| == 2 then Some((Strip(parts[0]), Strip(parts[1]))) else None
  }

  /** A `key = value` line yields the stripped key and value. */
  lemma KeyValueOfAssignment(key: string, val: string)
    requires '=' !in key && '=' !in val
    ensures KeyValue(key + "=" + val) == Some((Strip(key), Strip(val)))
  {
    assert Join([key, val], '=') == key + "=" + val by {
      assert [key, val][1..] == [val];
    }
    SplitJoin([key, val], '=', 2);
  }

  /** A line made only of whitespace (a blank line) yields nothing. */
  lemma BlankLineHasNoKey(line: string)
    requires AllSpace(line)
    ensures KeyValue(line).None?
  {
    SpacesHoldNoSeparator(line);
  }

  lemma SpacesHoldNoSeparator(line: string)
    requires AllSpace(line)
    ensures Count(line, '=') == 0
  {
    forall i | 0 <= i < |line|
      ensures line[i] != '='
    {
      assert IsSpace(line[i]);
    }
    CountZero(line, '=');
  }

  // ---------------------------------------------------------------------------
  // The four fields
  // ---------------------------------------------------------------------------

  /** `version_major`, `version_minor`, `patchlevel` and `extraversion`; `None` is Python's `None`. */
  datatype Fields = Fields(major: Option<string>, minor: Option<string>, patch: Option<string>, extra: Option<string>)

  const Unset: Fields := Fields(None, None, None, None)

  const VERSION_MAJOR: string := "VERSION_MAJOR"
  const VERSION_MINOR: string := "VERSION_MINOR"
  const PATCHLEVEL: string := "PATCHLEVEL"
  const EXTRAVERSION: string := "EXTRAVERSION"

  /** Python truthiness of a string variable: set and non-empty. */
  predicate Truthy(o: Option<string>) {
    o.Some? && o.value != ""
  }

  /** The early-exit test of the loop: all four values are truthy. */
  predicate Complete(f: Fields) {
    Truthy(f.major) && Truthy(f.minor) && Truthy(f.patch) && Truthy(f.extra)
  }

  /** The field that a key names, for the four keys the scan knows. */
  function Field(f: Fields, key: string): Option<string>
    requires key in {VERSION_MAJOR, VERSION_MINOR, PATCHLEVEL, EXTRAVERSION}
  {
    if key == VERSION_MAJOR then f.major
    else if key == VERSION_MINOR then f.minor
    else if key == PATCHLEVEL then f.patch
    else f.extra
  }

  /**
   * The assignments of one loop iteration: the field named by `key` takes
   * `val`, and the other three keep their values.
   */
  function Record(f: Fields, key: string, val: string): (g: Fields)
    ensures g.major == if key == VERSION_MAJOR then Some(val) else f.major
    ensures g.minor == if key == VERSION_MINOR then Some(val) else f.minor
    ensures g.patch == if key == PATCHLEVEL then Some(val) else f.patch
    ensures g.extra == if key == EXTRAVERSION then Some(val) else f.extra
  {
    if key == VERSION_MAJOR then f.(major := Some(val))
    else if key == VERSION_MINOR then f.(minor := Some(val))
    else if key == PATCHLEVEL then f.(patch := Some(val))
    else if key == EXTRAVERSION then f.(extra := Some(val))
    else f
  }

  /**
   * A line sets the field its key names and leaves the other three alone; a
   * line with any other key changes nothing.
   */
  lemma RecordSetsOnlyItsField(f: Fields, key: string, val: string, k: string)
    requires k in {VERSION_MAJOR, VERSION_MINOR, PATCHLEVEL, EXTRAVERSION}
    ensures Field(Record(f, key, val), k) == if key == k then Some(val) else Field(f, k)
  {
  }

  // ---------------------------------------------------------------------------
  // The scan
  // ---------------------------------------------------------------------------

  /** What one line gives the loop body: its key and value, or `None` where the unpacking raises. */
  type Parsed = Option<(string, string)>

  /** The lines of the file as the loop body sees them, one `KeyValue` each. */
  function Parse(lines: seq<string>): (kvs: seq<Parsed>)
    ensures |kvs| == |lines|
    ensures forall i :: 0 <= i < |lines| ==> kvs[i] == KeyValue(lines[i])
  {
    seq(|lines|, i requires 0 <= i < |lines| => KeyValue(lines[i]))
  }

  /** Parsing goes line by line: the lines of a concatenation parse to the concatenation. */
  lemma ParseAppend(a: seq<string>, b: seq<string>)
    ensures Parse(a + b) == Parse(a) + Parse(b)
  {
    var l := Parse(a + b);
    var r := Parse(a) + Parse(b);
    forall i | 0 <= i < |l|
      ensures l[i] == r[i]
    {
      if i < |a| {
        assert (a + b)[i] == a[i];
      } else {
        assert (a + b)[i] == b[i - |a|];
      }
    }
  }

  /**
   * The loop from the current fields `f` over the remaining parsed lines: a
   * line that raises ends it, and it stops after the first line that makes
   * all four values truthy.
   */
  function Scan(kvs: seq<Parsed>, f: Fields): Fields
    decreases |kvs|
  {
    if |kvs| == 0 then f
    else match kvs[0]
      case None => f
      case Some((key, val)) =>
        var g := Record(f, key, val);
        if Complete(g) then g else Scan(kvs[1..], g)
  }

  /** The fields the `try` block leaves behind for a file with these lines. */
  function ScanFile(lines: seq<string>): Fields {
    Scan(Parse(lines), Unset)
  }

  /** The loop with its `break`s, and the exception that ends it. */
  method ScanLines(lines: seq<string>) returns (f: Fields)
    ensures f == ScanFile(lines)
  {
    ghost var kvs := Parse(lines);
    f := Unset;
    var i := 0;
    while i < |lines|
      invariant 0 <= i <= |lines|
      invariant Scan(kvs[i..], f) == Scan(kvs, Unset)
    {
      var kv := KeyValue(lines[i]);
      assert kvs[i..][0] == kv;
      ScanFirst(kvs[i..], f);
      if kv.None? {
        break;
      }
      var (key, val) := kv.value;
      ghost var before := f;
      if key == VERSION_MAJOR {
        f := f.(major := Some(val));
      }
      if key == VERSION_MINOR {
        f := f.(minor := Some(val));
      } else if key == PATCHLEVEL {
        f := f.(patch := Some(val));
      } else if key == EXTRAVERSION {
        f := f.(extra := Some(val));
      }
      assert f == Record(before, key, val);
      if Complete(f) {
        break;
      }
      assert kvs[i..][1..] == kvs[i + 1..];
      i := i + 1;
    }
  }

  /** One unfolding of the scan over a non-empty list of parsed lines. */
  lemma ScanFirst(kvs: seq<Parsed>, f: Fields)
    requires |kvs| > 0
    ensures kvs[0].None? ==> Scan(kvs, f) == f
    ensures kvs[0].Some? ==>
              var g := Record(f, kvs[0].value.0, kvs[0].value.1);
              Scan(kvs, f) == if Complete(g) then g else Scan(kvs[1..], g)
  {
  }

  /**
   * A line that raises ends the scan: whatever follows it is never read, and
   * the fields gathered before it are the result.
   */
  lemma {:induction false} MalformedLineEndsScan(before: seq<Parsed>, after: seq<Parsed>, f: Fields)
    ensures Scan(before + [None] + after, f) == Scan(before, f)
    decreases |before|
  {
    var kvs := before + [None] + after;
    ScanFirst(kvs, f);
    if |before| == 0 {
      assert kvs[0] == None;
    } else {
      assert kvs[0] == before[0];
      assert kvs[1..] == before[1..] + [None] + after;
      ScanFirst(before, f);
      if before[0].Some? {
        MalformedLineEndsScan(before[1..], after, Record(f, before[0].value.0, before[0].value.1));
      }
    }
  }

  /** The same for the lines of a file: nothing after a line that does not split is read. */
  lemma MalformedLineEndsFileScan(before: seq<string>, bad: string, after: seq<string>)
    requires KeyValue(bad).None?
    ensures ScanFile(before + [bad] + after) == ScanFile(before)
  {
    ParseAppend(before + [bad], after);
    ParseAppend(before, [bad]);
    assert Parse([bad]) == [None];
    MalformedLineEndsScan(Parse(before), Parse(after), Unset);
  }

  /** Once all four values are truthy the scan has stopped: later lines are not read. */
  lemma {:induction false} CompleteScanIgnoresLaterLines(before: seq<Parsed>, after: seq<Parsed>, f: Fields)
    requires !Complete(f) && Complete(Scan(before, f))
    ensures Scan(before + after, f) == Scan(before, f)
    decreases |before|
  {
    assert |before| > 0;
    assert (before + after)[0] == before[0];
    assert (before + after)[1..] == before[1..] + after;
    ScanFirst(before, f);
    ScanFirst(before + after, f);
    var g := Record(f, before[0].value.0, before[0].value.1);
    if !Complete(g) {
      CompleteScanIgnoresLaterLines(before[1..], after, g);
    }
  }

  /** Every line splits into a key and a value. */
  predicate WellFormed(kvs: seq<Parsed>) {
    forall i :: 0 <= i < |kvs| ==> kvs[i].Some?
  }

  /** Every `EXTRAVERSION` line has an empty value. */
  predicate EmptyExtraversion(kvs: seq<Parsed>) {
    forall i :: 0 <= i < |kvs| && kvs[i].Some? && kvs[i].value.0 == EXTRAVERSION ==> kvs[i].value.1 == ""
  }

  /**
   * The value of the last line whose key is `key`, or `otherwise` when no
   * line has that key.
   */
  function LastValue(kvs: seq<Parsed>, key: string, otherwise: Option<string>): Option<string>
    decreases |kvs|
  {
    if |kvs| == 0 then otherwise
    else match kvs[|kvs| - 1]
      case Some((k, v)) =>
        if k == key then Some(v) else LastValue(kvs[..|kvs| - 1], key, otherwise)
      case None => LastValue(kvs[..|kvs| - 1], key, otherwise)
  }

  /** The value of a line counts as the starting value for the lines after it. */
  lemma {:induction false} LastValueCons(kv: Parsed, rest: seq<Parsed>, key: string, otherwise: Option<string>)
    ensures LastValue([kv] + rest, key, otherwise) == LastValue(rest, key, LastValue([kv], key, otherwise))
    decreases |rest|
  {
    var kvs := [kv] + rest;
    if |rest| == 0 {
      assert kvs == [kv];
    } else {
      assert kvs[|kvs| - 1] == rest[|rest| - 1];
      assert kvs[..|kvs| - 1] == [kv] + rest[..|rest| - 1];
      LastValueCons(kv, rest[..|rest| - 1], key, otherwise);
    }
  }

  /** `LastValueCons` for a sequence given whole. */
  lemma LastValueFirst(kvs: seq<Parsed>, key: string, otherwise: Option<string>)
    requires |kvs| > 0
    ensures LastValue(kvs, key, otherwise) == LastValue(kvs[1..], key, LastValue([kvs[0]], key, otherwise))
  {
    assert [kvs[0]] + kvs[1..] == kvs;
    LastValueCons(kvs[0], kvs[1..], key, otherwise);
  }

  /** On a single line, the last value of a key is that line's value when the key matches. */
  lemma LastValueSingle(key: string, val: string, k: string, otherwise: Option<string>)
    ensures LastValue([Some((key, val))], k, otherwise) == if key == k then Some(val) else otherwise
  {
    assert [Some((key, val))][..0] == [];
  }

  /** Both assumptions of the scan lemma below carry over to the lines after the first. */
  lemma TailKeepsAssumptions(kvs: seq<Parsed>)
    requires |kvs| > 0 && WellFormed(kvs) && EmptyExtraversion(kvs)
    ensures WellFormed(kvs[1..]) && EmptyExtraversion(kvs[1..])
  {
    forall i | 0 <= i < |kvs[1..]|
      ensures kvs[1..][i].Some?
    {
      assert kvs[1..][i] == kvs[i + 1];
    }
    forall i | 0 <= i < |kvs[1..]|
      ensures kvs[1..][i].Some? && kvs[1..][i].value.0 == EXTRAVERSION ==> kvs[1..][i].value.1 == ""
    {
      assert kvs[1..][i] == kvs[i + 1];
    }
  }

  /**
   * When every line is well-formed and no `EXTRAVERSION` value is non-empty,
   * the scan never stops early: it reads every line, and each field ends up
   * with the value of the last line that sets it (the last write wins).
   */
  lemma {:induction false} ScanReadsToEndAndLastWriteWins(kvs: seq<Parsed>, f: Fields, key: string)
    requires WellFormed(kvs) && EmptyExtraversion(kvs) && !Truthy(f.extra)
    requires key in {VERSION_MAJOR, VERSION_MINOR, PATCHLEVEL, EXTRAVERSION}
    ensures Field(Scan(kvs, f), key) == LastValue(kvs, key, Field(f, key))
    ensures !Truthy(Scan(kvs, f).extra)
    decreases |kvs|
  {
    if |kvs| > 0 {
      assert kvs[0].Some?;
      var (k, v) := kvs[0].value;
      assert k == EXTRAVERSION ==> v == "";
      var g := Record(f, k, v);
      assert !Truthy(g.extra);
      ScanFirst(kvs, f);
      TailKeepsAssumptions(kvs);
      ScanReadsToEndAndLastWriteWins(kvs[1..], g, key);
      RecordSetsOnlyItsField(f, k, v, key);
      LastValueSingle(k, v, key, Field(f, key));
      LastValueFirst(kvs, key, Field(f, key));
    }
  }

  // ---------------------------------------------------------------------------
  // The version string
  // ---------------------------------------------------------------------------

  /** What the configuration ends with: `version` and `release`, or `sys.exit` with a message. */
  datatype Outcome = Built(version: string, release: string) | Exit(message: string)

  /** The condition of the `finally` clause. */
  predicate Usable(f: Fields) {
    Truthy(f.major) && Truthy(f.minor) && Truthy(f.patch) && f.extra.Some?
  }

  /** `major.minor.patchlevel`. */
  function Dotted(f: Fields): string
    requires Usable(f)
  {
    Join([f.major.value, f.minor.value, f.patch.value], '.')
  }

  /** The `finally` clause. */
  function Finish(f: Fields, message: string): (r: Outcome)
    ensures r.Built? <==> Usable(f)
    ensures r.Exit? ==> r.message == message
    ensures r.Built? ==> r.version == r.release
  {
    if Truthy(f.major) && Truthy(f.minor) && Truthy(f.patch) && f.extra.Some? then
      var version := f.major.value + "." + f.minor.value + "." + f.patch.value;
      if f.extra.value != "" then
        var suffixed := version + "-" + f.extra.value;
        Built(suffixed, suffixed)
      else
        Built(version, version)
    else
      Exit(message)
  }

  /**
   * The version is `major.minor.patchlevel`, followed by '-' and the
   * extraversion exactly when the extraversion is non-empty.
   */
  lemma FinishVersion(f: Fields, message: string)
    requires Usable(f)
    ensures f.extra.value == "" ==> Finish(f, message).version == Dotted(f)
    ensures f.extra.value != "" ==> Finish(f, message).version == Dotted(f) + "-" + f.extra.value
  {
    var parts := [f.major.value, f.minor.value, f.patch.value];
    assert parts[1..][1..] == [f.patch.value];
    assert Join(parts[1..], '.') == f.minor.value + "." + f.patch.value;
    assert Dotted(f) == f.major.value + "." + f.minor.value + "." + f.patch.value;
  }

  /**
   * For components without a dot, the dotted part of the version splits back
   * into major, minor and patchlevel.
   */
  lemma DottedSplitsBack(f: Fields)
    requires Usable(f)
    requires '.' !in f.major.value && '.' !in f.minor.value && '.' !in f.patch.value
    ensures Split(Dotted(f), '.', 2) == [f.major.value, f.minor.value, f.patch.value]
  {
    SplitJoin([f.major.value, f.minor.value, f.patch.value], '.', 2);
  }

  /** The whole try/except/finally on a file that may be missing (`None`). */
  function FileVersion(file: Option<seq<string>>, message: string): (r: Outcome)
    ensures file.None? ==> r == Exit(message)
  {
    Finish(if file.Some? then ScanFile(file.value) else Unset, message)
  }

  method ReadVersion(file: Option<seq<string>>, message: string) returns (r: Outcome)
    ensures r == FileVersion(file, message)
  {
    var f := Unset;
    if file.Some? {
      f := ScanLines(file.value);
    }
    r := Finish(f, message);
  }

  /** No line of the file has the key `EXTRAVERSION`. */
  predicate NoExtraversionLine(kvs: seq<Parsed>) {
    forall i :: 0 <= i < |kvs| ==> !SetsExtraversion(kvs[i])
  }

  predicate SetsExtraversion(kv: Parsed) {
    kv.Some? && kv.value.0 == EXTRAVERSION
  }

  /**
   * A file without an `EXTRAVERSION` line (or whose scan ends at a malformed
   * line before one) makes the build exit.
   */
  lemma NoExtraversionExits(lines: seq<string>, message: string)
    requires NoExtraversionLine(Parse(lines))
    ensures FileVersion(Some(lines), message) == Exit(message)
  {
    NoExtraversionKeepsUnset(Parse(lines), Unset);
  }

  lemma NoExtraversionTail(kvs: seq<Parsed>)
    requires |kvs| > 0 && NoExtraversionLine(kvs)
    ensures !SetsExtraversion(kvs[0]) && NoExtraversionLine(kvs[1..])
  {
    forall i | 0 <= i < |kvs[1..]|
      ensures !SetsExtraversion(kvs[1..][i])
    {
      assert kvs[1..][i] == kvs[i + 1];
    }
  }

  lemma {:induction false} NoExtraversionKeepsUnset(kvs: seq<Parsed>, f: Fields)
    requires NoExtraversionLine(kvs)
    requires f.extra.None?
    ensures Scan(kvs, f).extra.None?
    decreases |kvs|
  {
    if |kvs| > 0 {
      ScanFirst(kvs, f);
      NoExtraversionTail(kvs);
      if kvs[0].Some? {
        NoExtraversionKeepsUnset(kvs[1..], Record(f, kvs[0].value.0, kvs[0].value.1));
      }
    }
  }
}
