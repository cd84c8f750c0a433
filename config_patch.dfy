/**
 * The `.config` patcher of the BusyBox build (sources/core/busybox.py):
 * set_config_option rewrites one KEY=VALUE line of the file, patch_config
 * applies a whole patch mapping, and the mapping is the later-wins merge of
 * the built-in defaults with the user's extra_config.
 */
module BusyboxConfig {
  import opened Wrappers
  import opened Text
  import Paths

  // ------------------------------------------------------------------
  // The file as text and as a list of lines
  // ------------------------------------------------------------------

  predicate NoNewline(s: string) {
    '\n' !in s
  }

  predicate NoNewlines(lines: seq<string>) {
    forall i :: 0 <= i < |lines| ==> NoNewline(lines[i])
  }

  /** The index of the first line break of s, or |s| when it has none. */
  function FirstNewline(s: string): (i: nat)
    ensures i <= |s|
    ensures i < |s| ==> s[i] == '\n'
    ensures forall j :: 0 <= j < i ==> s[j] != '\n'
  {
    if s == [] || s[0] == '\n' then 0 else 1 + FirstNewline(s[1..])
  }

  /**
   * str.splitlines on text whose line break is '\n': the text is cut at every
   * break, and a final break does not open an empty last line.
   */
  function SplitLines(s: string): (lines: seq<string>)
    ensures NoNewlines(lines)
    decreases |s|
  {
    if s == [] then []
    else
      var i := FirstNewline(s);
      if i == |s| then [s] else [s[..i]] + SplitLines(s[i + 1..])
  }

  /** "\n".join(lines) */
  function JoinLines(lines: seq<string>): string {
    if lines == [] then ""
    else if |lines| == 1 then lines[0]
    else lines[0] + "\n" + JoinLines(lines[1..])
  }

  /** The text written back: the lines joined by line breaks, plus a final line break. */
  function Serialize(lines: seq<string>): (text: string)
    ensures |text| > 0 && text[|text| - 1] == '\n'
  {
    JoinLines(lines) + "\n"
  }

  lemma FirstNewlineAfter(line: string, rest: string)
    requires NoNewline(line)
    ensures FirstNewline(line + "\n" + rest) == |line|
  {
    var s := line + "\n" + rest;
    assert s[|line|] == '\n';
    assert forall j :: 0 <= j < |line| ==> s[j] == line[j];
  }

  /** A line followed by a break is read back as that line, then whatever follows. */
  lemma SplitFirst(line: string, rest: string)
    requires NoNewline(line)
    ensures SplitLines(line + "\n" + rest) == [line] + SplitLines(rest)
  {
    var s := line + "\n" + rest;
    FirstNewlineAfter(line, rest);
    assert s[..|line|] == line;
    assert s[|line| + 1..] == rest;
  }

  lemma SerializeFirst(lines: seq<string>)
    requires |lines| > 1
    ensures Serialize(lines) == lines[0] + "\n" + Serialize(lines[1..])
  {
  }

  /** Reading back what was written gives the same lines, when there is at least one line and none holds a line break. */
  lemma {:induction false} SplitSerialize(lines: seq<string>)
    requires lines != [] && NoNewlines(lines)
    ensures SplitLines(Serialize(lines)) == lines
    decreases |lines|
  {
    assert NoNewline(lines[0]);
    if |lines| == 1 {
      assert Serialize(lines) == lines[0] + "\n" + "";
      SplitFirst(lines[0], "");
    } else {
      SerializeFirst(lines);
      SplitFirst(lines[0], Serialize(lines[1..]));
      assert NoNewlines(lines[1..]);
      SplitSerialize(lines[1..]);
      assert lines == [lines[0]] + lines[1..];
    }
  }

  // ------------------------------------------------------------------
  // set_config_option on the list of lines
  // ------------------------------------------------------------------

  /** The line f"{key}={value}". */
  function Assignment(key: string, value: string): string {
    key + "=" + value
  }

  /** A line sets key when it starts with "key=". */
  predicate Sets(line: string, key: string) {
    StartsWith(line, key + "=")
  }

  lemma AssignmentSets(key: string, value: string)
    ensures Sets(Assignment(key, value), key)
  {
    assert Assignment(key, value)[..|key| + 1] == key + "=";
  }

  /** The index of the first line that sets key, if any. */
  function FirstMatch(lines: seq<string>, key: string): (r: Option<nat>)
    ensures r.None? <==> forall j :: 0 <= j < |lines| ==> !Sets(lines[j], key)
    ensures r.Some? ==> r.value < |lines| && Sets(lines[r.value], key)
    ensures r.Some? ==> forall j :: 0 <= j < r.value ==> !Sets(lines[j], key)
  {
    if lines == [] then None
    else if Sets(lines[0], key) then Some(0)
    else match FirstMatch(lines[1..], key)
      case None => None
      case Some(i) => Some(i + 1)
  }

  /** FirstMatch finds the first line that sets key. */
  lemma FirstMatchIs(lines: seq<string>, key: string, i: nat)
    requires i < |lines| && Sets(lines[i], key)
    requires forall j :: 0 <= j < i ==> !Sets(lines[j], key)
    ensures FirstMatch(lines, key) == Some(i)
  {
    var m := FirstMatch(lines, key);
  }

  /**
   * The lines after set_config_option: the first line that sets key becomes
   * key=value and no other line changes; when no line sets key, key=value is
   * appended after all of them.
   */
  function SetOption(lines: seq<string>, key: string, value: string): (r: seq<string>)
    ensures forall i :: 0 <= i < |lines| && Sets(lines[i], key) && (forall j :: 0 <= j < i ==> !Sets(lines[j], key))
              ==> r == lines[i := Assignment(key, value)]
    ensures (forall j :: 0 <= j < |lines| ==> !Sets(lines[j], key)) ==> r == lines + [Assignment(key, value)]
  {
    match FirstMatch(lines, key)
    case Some(i) => lines[i := Assignment(key, value)]
    case None => lines + [Assignment(key, value)]
  }

  /** The first line that sets key sets it to value. */
  ghost predicate Assigned(lines: seq<string>, key: string, value: string) {
    var m := FirstMatch(lines, key);
    m.Some? && lines[m.value] == Assignment(key, value)
  }

  lemma SetOptionAssigns(lines: seq<string>, key: string, value: string)
    ensures Assigned(SetOption(lines, key, value), key, value)
  {
    var r := SetOption(lines, key, value);
    AssignmentSets(key, value);
    match FirstMatch(lines, key)
    case Some(i) =>
      FirstMatchIs(r, key, i);
    case None =>
      FirstMatchIs(r, key, |lines|);
  }

  /** Applying set_config_option a second time with the same key and value changes nothing. */
  lemma SetOptionIdempotent(lines: seq<string>, key: string, value: string)
    ensures SetOption(SetOption(lines, key, value), key, value) == SetOption(lines, key, value)
  {
    var once := SetOption(lines, key, value);
    SetOptionAssigns(lines, key, value);
    var i := FirstMatch(once, key).value;
    assert once[i := Assignment(key, value)] == once;
  }

  /** A line that assigns one '='-free key never sets a different '='-free key. */
  lemma AssignmentSetsOnlyItsKey(k1: string, v1: string, k2: string)
    requires k1 != k2 && '=' !in k1 && '=' !in k2
    ensures !Sets(Assignment(k1, v1), k2)
  {
    var line := Assignment(k1, v1);
    if |k2| + 1 <= |line| {
      var p, q := line[..|k2| + 1], k2 + "=";
      if |k2| < |k1| {
        assert p[|k2|] == k1[|k2|] != '=' == q[|k2|];
      } else if |k2| == |k1| {
        assert p[..|k1|] == k1 != k2 == q[..|k2|];
      } else {
        assert p[|k1|] == '=' != k2[|k1|] == q[|k1|];
      }
    }
  }

  /** Setting one '='-free key keeps the assignment of another '='-free key. */
  lemma SetOptionKeepsOther(lines: seq<string>, k1: string, v1: string, k2: string, v2: string)
    requires k1 != k2 && '=' !in k1 && '=' !in k2
    requires Assigned(lines, k1, v1)
    ensures Assigned(SetOption(lines, k2, v2), k1, v1)
  {
    var i := FirstMatch(lines, k1).value;
    var r := SetOption(lines, k2, v2);
    var a2 := Assignment(k2, v2);
    AssignmentSetsOnlyItsKey(k1, v1, k2);
    AssignmentSetsOnlyItsKey(k2, v2, k1);
    match FirstMatch(lines, k2)
    case Some(j) =>
      assert r == lines[j := a2];
      assert j != i;
      forall l | 0 <= l < i ensures !Sets(r[l], k1) {
        if l != j {
          assert r[l] == lines[l];
        }
      }
      FirstMatchIs(r, k1, i);
    case None =>
      assert r == lines + [a2];
      forall l | 0 <= l < i ensures !Sets(r[l], k1) {
        assert r[l] == lines[l];
      }
      FirstMatchIs(r, k1, i);
  }

  // ------------------------------------------------------------------
  // patch_config: every option of a mapping, in iteration order
  // ------------------------------------------------------------------

  /** A Python dict with string keys and values, as its items in insertion order. */
  type Dict = seq<(string, string)>

  predicate DistinctKeys(d: Dict) {
    forall i, j :: 0 <= i < j < |d| ==> d[i].0 != d[j].0
  }

  /** The lines after set_config_option has run for each item of opts in turn. */
  function PatchLines(lines: seq<string>, opts: Dict): seq<string>
    decreases |opts|
  {
    if opts == [] then lines
    else
      var last := opts[|opts| - 1];
      SetOption(PatchLines(lines, opts[..|opts| - 1]), last.0, last.1)
  }

  /**
   * After patching with a mapping whose keys hold no '=', every key of the
   * mapping is set, by its first line, to its own value.
   */
  lemma {:induction false} PatchLinesAssignsAll(lines: seq<string>, opts: Dict)
    requires DistinctKeys(opts)
    requires forall n :: 0 <= n < |opts| ==> '=' !in opts[n].0
    ensures forall n :: 0 <= n < |opts| ==> Assigned(PatchLines(lines, opts), opts[n].0, opts[n].1)
    decreases |opts|
  {
    if opts != [] {
      var init, last := opts[..|opts| - 1], opts[|opts| - 1];
      var before := PatchLines(lines, init);
      PatchLinesAssignsAll(lines, init);
      SetOptionAssigns(before, last.0, last.1);
      forall n | 0 <= n < |opts| - 1
        ensures Assigned(PatchLines(lines, opts), opts[n].0, opts[n].1)
      {
        assert init[n] == opts[n];
        SetOptionKeepsOther(before, opts[n].0, opts[n].1, last.0, last.1);
      }
    }
  }

  lemma {:induction false} PatchLinesShape(lines: seq<string>, opts: Dict)
    requires NoNewlines(lines)
    requires forall n :: 0 <= n < |opts| ==> NoNewline(opts[n].0) && NoNewline(opts[n].1)
    ensures NoNewlines(PatchLines(lines, opts))
    ensures opts != [] ==> PatchLines(lines, opts) != []
    decreases |opts|
  {
    if opts != [] {
      var init, last := opts[..|opts| - 1], opts[|opts| - 1];
      PatchLinesShape(lines, init);
      var before := PatchLines(lines, init);
      assert NoNewline(Assignment(last.0, last.1));
      var after := SetOption(before, last.0, last.1);
      assert forall j :: 0 <= j < |after| ==> after[j] == Assignment(last.0, last.1) || (j < |before| && after[j] == before[j]);
    }
  }

  // ------------------------------------------------------------------
  // The same rules on the file's text
  // ------------------------------------------------------------------

  /** The text of `.config` after one set_config_option call: read, split, update, rewrite. */
  function SetOptionText(text: string, key: string, value: string): (r: string)
    ensures |r| > 0 && r[|r| - 1] == '\n'
  {
    Serialize(SetOption(SplitLines(text), key, value))
  }

  /** The text of `.config` after set_config_option has run for each item of opts in turn. */
  function PatchText(text: string, opts: Dict): string
    decreases |opts|
  {
    if opts == [] then text
    else
      var last := opts[|opts| - 1];
      SetOptionText(PatchText(text, opts[..|opts| - 1]), last.0, last.1)
  }

  /** Rewriting the file twice with the same key and value gives the same text as rewriting it once. */
  lemma SetOptionTextIdempotent(text: string, key: string, value: string)
    requires NoNewline(key) && NoNewline(value)
    ensures SetOptionText(SetOptionText(text, key, value), key, value) == SetOptionText(text, key, value)
  {
    var lines := SetOption(SplitLines(text), key, value);
    PatchLinesShape(SplitLines(text), [(key, value)]);
    assert PatchLines(SplitLines(text), [(key, value)]) == lines;
    SplitSerialize(lines);
    SetOptionIdempotent(SplitLines(text), key, value);
  }

  /** Patching the file rewrites it as a whole: it is the patched lines of the original text, serialized once. */
  lemma {:induction false} PatchTextAsLines(text: string, opts: Dict)
    requires opts != []
    requires forall n :: 0 <= n < |opts| ==> NoNewline(opts[n].0) && NoNewline(opts[n].1)
    ensures PatchText(text, opts) == Serialize(PatchLines(SplitLines(text), opts))
    decreases |opts|
  {
    var init, last := opts[..|opts| - 1], opts[|opts| - 1];
    if init != [] {
      PatchTextAsLines(text, init);
      PatchLinesShape(SplitLines(text), init);
      SplitSerialize(PatchLines(SplitLines(text), init));
    }
  }

  /**
   * After patch_config with a non-empty mapping whose keys hold no '=' and no
   * line break, and whose values hold no line break, reading `.config` back
   * finds every key of the mapping set to its value by its first line, and the
   * file ends in a line break.
   */
  lemma PatchTextAssignsAll(text: string, opts: Dict)
    requires opts != [] && DistinctKeys(opts)
    requires forall n :: 0 <= n < |opts| ==> '=' !in opts[n].0 && NoNewline(opts[n].0) && NoNewline(opts[n].1)
    ensures forall n :: 0 <= n < |opts| ==> Assigned(SplitLines(PatchText(text, opts)), opts[n].0, opts[n].1)
    ensures var r := PatchText(text, opts); r[|r| - 1] == '\n'
  {
    PatchTextAsLines(text, opts);
    PatchLinesShape(SplitLines(text), opts);
    SplitSerialize(PatchLines(SplitLines(text), opts));
    PatchLinesAssignsAll(SplitLines(text), opts);
  }

  // ------------------------------------------------------------------
  // The patch mapping: {**DEFAULT_PATCH, **extra_cfg}
  // ------------------------------------------------------------------

  function Keys(d: Dict): seq<string> {
    seq(|d|, i requires 0 <= i < |d| => d[i].0)
  }

  /** The position of key among the items of d, if present. */
  function IndexOf(d: Dict, key: string): (r: Option<nat>)
    ensures r.None? <==> key !in Keys(d)
    ensures r.Some? ==> r.value < |d| && d[r.value].0 == key
    ensures r.Some? ==> forall j :: 0 <= j < r.value ==> d[j].0 != key
  {
    if d == [] then None
    else if d[0].0 == key then assert Keys(d)[0] == key; Some(0)
    else
      assert Keys(d) == [d[0].0] + Keys(d[1..]);
      match IndexOf(d[1..], key)
      case None => None
      case Some(i) => Some(i + 1)
  }

  lemma IndexOfIs(d: Dict, key: string, i: nat)
    requires i < |d| && d[i].0 == key
    requires forall j :: 0 <= j < i ==> d[j].0 != key
    ensures IndexOf(d, key) == Some(i)
  {
    assert Keys(d)[i] == key;
    var m := IndexOf(d, key);
  }

  lemma IndexOfByKeys(d1: Dict, d2: Dict, key: string)
    requires Keys(d1) == Keys(d2)
    ensures IndexOf(d1, key) == IndexOf(d2, key)
  {
    match IndexOf(d1, key)
    case Some(i) =>
      assert d2[i].0 == Keys(d2)[i] == Keys(d1)[i] == key;
      forall j | 0 <= j < i ensures d2[j].0 != key {
        assert d2[j].0 == Keys(d2)[j] == Keys(d1)[j] == d1[j].0;
      }
      IndexOfIs(d2, key, i);
    case None =>
  }

  /** dict.get */
  function Get(d: Dict, key: string): Option<string> {
    match IndexOf(d, key)
    case Some(i) => Some(d[i].1)
    case None => None
  }

  /** d[key] = value: an existing key keeps its place and takes the new value; a new key goes last. */
  function Put(d: Dict, key: string, value: string): Dict {
    match IndexOf(d, key)
    case Some(i) => d[i := (key, value)]
    case None => d + [(key, value)]
  }

  /** Putting an item keeps the keys distinct, adds its key last if new, and changes only that key's value. */
  lemma PutFacts(d: Dict, key: string, value: string)
    requires DistinctKeys(d)
    ensures DistinctKeys(Put(d, key, value))
    ensures Keys(Put(d, key, value)) == if key in Keys(d) then Keys(d) else Keys(d) + [key]
    ensures forall x :: Get(Put(d, key, value), x) == if x == key then Some(value) else Get(d, x)
  {
    var r := Put(d, key, value);
    match IndexOf(d, key)
    case Some(i) =>
      assert Keys(d)[i] == key;
      assert Keys(r) == Keys(d);
      forall x ensures Get(r, x) == if x == key then Some(value) else Get(d, x) {
        IndexOfByKeys(r, d, x);
      }
    case None =>
      forall j | 0 <= j < |d| ensures d[j].0 != key {
        assert Keys(d)[j] == d[j].0;
      }
      assert Keys(r) == Keys(d) + [key];
      forall x ensures Get(r, x) == if x == key then Some(value) else Get(d, x) {
        if x == key {
          IndexOfIs(r, x, |d|);
        } else {
          match IndexOf(d, x)
          case Some(j) => IndexOfIs(r, x, j);
          case None => assert x !in Keys(r);
        }
      }
  }

  /** {**a, **b}: the items of b put into a copy of a, in b's order. */
  function Merge(a: Dict, b: Dict): Dict
    decreases |b|
  {
    if b == [] then a
    else
      var last := b[|b| - 1];
      Put(Merge(a, b[..|b| - 1]), last.0, last.1)
  }

  /** The items of b whose key a lacks, in b's order. */
  function Fresh(a: Dict, b: Dict): (r: Dict)
    ensures forall x :: x in Keys(r) ==> x in Keys(b) && x !in Keys(a)
    decreases |b|
  {
    if b == [] then []
    else
      var last := b[|b| - 1];
      var r := Fresh(a, b[..|b| - 1]) + (if last.0 in Keys(a) then [] else [last]);
      assert Keys(b) == Keys(b[..|b| - 1]) + [last.0];
      assert Keys(r) == Keys(Fresh(a, b[..|b| - 1])) + (if last.0 in Keys(a) then [] else [last.0]);
      r
  }

  lemma KeysAppend(d: Dict, e: Dict)
    ensures Keys(d + e) == Keys(d) + Keys(e)
  {
    forall i | 0 <= i < |d| + |e|
      ensures Keys(d + e)[i] == (Keys(d) + Keys(e))[i]
    {
      if i < |d| {
        assert (d + e)[i] == d[i];
      } else {
        assert (d + e)[i] == e[i - |d|];
      }
    }
  }

  /** One more item of b: Merge puts it, Fresh keeps it when a lacks its key. */
  lemma MergeSnoc(a: Dict, b: Dict, item: (string, string))
    ensures Merge(a, b + [item]) == Put(Merge(a, b), item.0, item.1)
    ensures Fresh(a, b + [item]) == Fresh(a, b) + (if item.0 in Keys(a) then [] else [item])
  {
    assert (b + [item])[..|b|] == b;
  }

  /** The keys half of the merge step. */
  lemma MergeStepKeys(a: Dict, b: Dict, item: (string, string))
    requires item.0 !in Keys(b)
    requires DistinctKeys(Merge(a, b))
    requires Keys(Merge(a, b)) == Keys(a) + Keys(Fresh(a, b))
    ensures DistinctKeys(Merge(a, b + [item]))
    ensures Keys(Merge(a, b + [item])) == Keys(a) + Keys(Fresh(a, b + [item]))
  {
    var m := Merge(a, b);
    var f := Fresh(a, b);
    MergeSnoc(a, b, item);
    PutFacts(m, item.0, item.1);
    assert item.0 !in Keys(f);
    assert item.0 in Keys(m) <==> item.0 in Keys(a);
    if item.0 in Keys(a) {
      assert Fresh(a, b + [item]) == f;
    } else {
      KeysAppend(f, [item]);
    }
  }

  /** The values half of the merge step. */
  lemma MergeStepGet(a: Dict, b: Dict, item: (string, string))
    requires DistinctKeys(b) && item.0 !in Keys(b)
    requires DistinctKeys(Merge(a, b))
    requires forall x :: Get(Merge(a, b), x) == if x in Keys(b) then Get(b, x) else Get(a, x)
    ensures forall x :: Get(Merge(a, b + [item]), x) == if x in Keys(b + [item]) then Get(b + [item], x) else Get(a, x)
  {
    MergeSnoc(a, b, item);
    PutFacts(Merge(a, b), item.0, item.1);
    assert Put(b, item.0, item.1) == b + [item];
    PutFacts(b, item.0, item.1);
  }

  /**
   * The merge in full: its keys are a's keys in a's order followed by b's new
   * keys in b's order, and every key takes b's value if b has it, a's otherwise.
   */
  lemma {:induction false} MergeFacts(a: Dict, b: Dict)
    requires DistinctKeys(a) && DistinctKeys(b)
    ensures DistinctKeys(Merge(a, b))
    ensures Keys(Merge(a, b)) == Keys(a) + Keys(Fresh(a, b))
    ensures forall x :: Get(Merge(a, b), x) == if x in Keys(b) then Get(b, x) else Get(a, x)
    decreases |b|
  {
    if b != [] {
      var init, last := b[..|b| - 1], b[|b| - 1];
      assert b == init + [last];
      KeysAppend(init, [last]);
      assert DistinctKeys(init);
      assert last.0 !in Keys(init);
      MergeFacts(a, init);
      MergeStepKeys(a, init, last);
      MergeStepGet(a, init, last);
    }
  }

  /** The built-in patch items: TC off, a static binary. */
  const DefaultPatch: Dict := [("CONFIG_TC", "n"), ("CONFIG_STATIC", "y")]

  /** The mapping build_busybox hands to patch_config. */
  function PatchSet(extra: Dict): Dict {
    Merge(DefaultPatch, extra)
  }

  /**
   * extra_config wins on shared keys; CONFIG_TC=n and CONFIG_STATIC=y hold
   * for the keys it lacks; the defaults come first, then extra's new keys in
   * extra's order.
   */
  lemma PatchSetValues(extra: Dict)
    requires DistinctKeys(extra)
    ensures DistinctKeys(PatchSet(extra))
    ensures Keys(PatchSet(extra)) == ["CONFIG_TC", "CONFIG_STATIC"] + Keys(Fresh(DefaultPatch, extra))
    ensures forall x :: x in Keys(extra) ==> Get(PatchSet(extra), x) == Get(extra, x)
    ensures "CONFIG_TC" !in Keys(extra) ==> Get(PatchSet(extra), "CONFIG_TC") == Some("n")
    ensures "CONFIG_STATIC" !in Keys(extra) ==> Get(PatchSet(extra), "CONFIG_STATIC") == Some("y")
  {
    MergeFacts(DefaultPatch, extra);
    assert Keys(DefaultPatch) == ["CONFIG_TC", "CONFIG_STATIC"];
    IndexOfIs(DefaultPatch, "CONFIG_TC", 0);
    IndexOfIs(DefaultPatch, "CONFIG_STATIC", 1);
  }

  // ------------------------------------------------------------------
  // The file itself
  // ------------------------------------------------------------------

  datatype ConfigError = FileNotFound(path: string)

  /** The `.config` file of a BusyBox source directory. */
  class ConfigFile {
    const dir: string
    var present: bool
    var text: string

    constructor (dir: string, present: bool, text: string)
      ensures this.dir == dir && this.present == present && this.text == text
    {
      this.dir := dir;
      this.present := present;
      this.text := text;
    }

    function Path(): string {
      Paths.Join(dir, ".config")
    }

    /** set_config_option: rewrite the file with key set to value; a missing file raises. */
    method SetConfigOption(key: string, value: string) returns (r: Outcome<ConfigError>)
      modifies this
      ensures present == old(present)
      ensures !old(present) ==> r == Fail(FileNotFound(Path())) && text == old(text)
      ensures old(present) ==> r == Pass && text == SetOptionText(old(text), key, value)
    {
      if !present {
        return Fail(FileNotFound(Path()));
      }
      var lines := SplitLines(text);
      var entry := Assignment(key, value);
      var found := false;
      var i := 0;
      while i < |lines|
        invariant 0 <= i <= |lines|
        invariant lines == SplitLines(old(text))
        invariant forall j :: 0 <= j < i ==> !Sets(lines[j], key)
      {
        if Sets(lines[i], key) {
          lines := lines[i := entry];
          found := true;
          break;
        }
        i := i + 1;
      }
      if !found {
        lines := lines + [entry];
      }
      text := Serialize(lines);
      return Pass;
    }

    /** patch_config: a missing file raises before anything changes; otherwise every option is set in order. */
    method PatchConfig(options: Dict) returns (r: Outcome<ConfigError>)
      modifies this
      ensures present == old(present)
      ensures !old(present) ==> r == Fail(FileNotFound(Path())) && text == old(text)
      ensures old(present) ==> r == Pass && text == PatchText(old(text), options)
    {
      if !present {
        return Fail(FileNotFound(Path()));
      }
      for n := 0 to |options|
        invariant present
        invariant text == PatchText(old(text), options[..n])
      {
        var step := SetConfigOption(options[n].0, options[n].1);
        assert options[..n + 1][..n] == options[..n];
      }
      assert options[..|options|] == options;
      return Pass;
    }
  }
}
