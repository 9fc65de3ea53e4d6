/** Two small PM attributes: `pm_async`, a 0/1 switch, and `pm_test`, which
    selects one of the suspend test levels by name and lists all of them
    with the current one in brackets. */
module PmAttributes {
  import opened Wrappers
  import opened KernelTypes

  /** `TEST_NONE` .. `TEST_FREEZER`: a level is an index into this table. */
  const PM_TESTS: seq<string> := ["none", "core", "processors", "platform", "devices", "freezer"]
  const TEST_NONE: int := 0
  const TEST_FIRST: int := TEST_NONE
  const TEST_MAX: int := |PM_TESTS| - 1

  /** The length of the command: the text before the first newline, or the
      whole buffer when it holds none. */
  function CommandLength(buf: string): (len: nat)
    ensures len <= |buf|
    ensures forall k :: 0 <= k < len ==> buf[k] != '\n'
    ensures len < |buf| ==> buf[len] == '\n'
  {
    if buf == [] || buf[0] == '\n' then 0 else 1 + CommandLength(buf[1..])
  }

  /** A first line followed by a newline is cut right before the newline. */
  lemma {:induction false} CommandLengthOfLine(line: string, rest: string)
    requires '\n' !in line
    ensures CommandLength(line + "\n" + rest) == |line|
  {
    if line != [] {
      assert (line + "\n" + rest)[1..] == line[1..] + "\n" + rest;
      CommandLengthOfLine(line[1..], rest);
    }
  }

  /** The first level, from `level` upwards, whose name is `word`. */
  function LevelNamedFrom(word: string, level: nat): (r: Option<int>)
    requires level <= |PM_TESTS|
    ensures r.Some? ==> level <= r.value < |PM_TESTS| && PM_TESTS[r.value] == word
    ensures r.None? ==> forall l :: level <= l < |PM_TESTS| ==> PM_TESTS[l] != word
    decreases |PM_TESTS| - level
  {
    if level == |PM_TESTS| then None
    else if PM_TESTS[level] == word then Some(level)
    else LevelNamedFrom(word, level + 1)
  }

  /** The level whose name is exactly `word`, if any. */
  function LevelNamed(word: string): (r: Option<int>)
    ensures r.Some? ==> TEST_FIRST <= r.value <= TEST_MAX && PM_TESTS[r.value] == word
    ensures r.None? <==> word !in PM_TESTS
  {
    LevelNamedFrom(word, 0)
  }

  /** The names are distinct, so every name selects its own level. */
  lemma NameSelectsLevel(level: int)
    requires TEST_FIRST <= level <= TEST_MAX
    ensures LevelNamed(PM_TESTS[level]) == Some(level)
  {
  }

  /** How `pm_test_show` prints one level, with its trailing space. */
  function ShowWord(level: int, current: int): (r: string)
    requires 0 <= level < |PM_TESTS|
    ensures |r| > |PM_TESTS[level]| && r[|r| - 1] == ' '
  {
    if level == current then "[" + PM_TESTS[level] + "] " else PM_TESTS[level] + " "
  }

  /** The words of levels 0 .. upto-1. */
  function ShowWords(current: int, upto: nat): (r: string)
    requires upto <= |PM_TESTS|
    ensures upto == 0 <==> r == []
    ensures r != [] ==> r[|r| - 1] == ' '
  {
    if upto == 0 then "" else ShowWords(current, upto - 1) + ShowWord(upto - 1, current)
  }

  /** The text of `pm_test_show`: every level, and the last space turned
      into a newline. */
  function TestShowText(current: int): (r: string)
    ensures |r| > 0 && r[|r| - 1] == '\n'
  {
    LastSpaceToNewline(ShowWords(current, |PM_TESTS|))
  }

  /** A non-empty text with its last character replaced by a newline; an
      empty text is left alone. */
  function LastSpaceToNewline(s: string): (r: string)
    ensures |r| == |s|
    ensures s != [] ==> r[..|r| - 1] == s[..|s| - 1] && r[|r| - 1] == '\n'
  {
    if s == "" then s else s[..|s| - 1] + "\n"
  }

  /** No level name holds a bracket or a newline. */
  lemma NamesArePlain(level: int)
    requires 0 <= level < |PM_TESTS|
    ensures '[' !in PM_TESTS[level] && '\n' !in PM_TESTS[level]
  {
    assert PM_TESTS[level] in PM_TESTS;
  }

  lemma ShowWordBracket(level: int, current: int)
    requires 0 <= level < |PM_TESTS|
    ensures ('[' in ShowWord(level, current)) <==> level == current
  {
    NamesArePlain(level);
    var name := PM_TESTS[level];
    if level == current {
      assert ShowWord(level, current)[0] == '[';
    } else {
      assert ShowWord(level, current) == name + " ";
    }
  }

  lemma {:induction false} ShowWordsBracket(current: int, upto: nat)
    requires upto <= |PM_TESTS|
    ensures ('[' in ShowWords(current, upto)) <==> 0 <= current < upto
  {
    if upto > 0 {
      ShowWordsBracket(current, upto - 1);
      ShowWordBracket(upto - 1, current);
      var prefix := ShowWords(current, upto - 1);
      var w := ShowWord(upto - 1, current);
      assert ('[' in prefix + w) <==> ('[' in prefix || '[' in w);
    }
  }

  /** The listing ends in a newline and brackets a name exactly when the
      current level is one of the levels. */
  lemma TestShowMarksCurrent(current: int)
    ensures var text := TestShowText(current);
      && |text| > 0 && text[|text| - 1] == '\n'
      && (('[' in text) <==> TEST_FIRST <= current <= TEST_MAX)
  {
    var s := ShowWords(current, |PM_TESTS|);
    ShowWordsBracket(current, |PM_TESTS|);
    var last := ShowWord(|PM_TESTS| - 1, current);
    assert s == ShowWords(current, |PM_TESTS| - 1) + last;
    assert last[|last| - 1] == ' ';
    assert s[|s| - 1] == ' ';
    assert s == s[..|s| - 1] + [' '];
    assert ('[' in s) <==> ('[' in s[..|s| - 1]);
  }

  /** Writing a level's name, newline-terminated, selects that level. */
  lemma StoreShownName(level: int, rest: string)
    requires TEST_FIRST <= level <= TEST_MAX
    ensures var buf := PM_TESTS[level] + "\n" + rest;
      LevelNamed(buf[..CommandLength(buf)]) == Some(level)
  {
    var buf := PM_TESTS[level] + "\n" + rest;
    NamesArePlain(level);
    CommandLengthOfLine(PM_TESTS[level], rest);
    assert buf[..CommandLength(buf)] == PM_TESTS[level];
    NameSelectsLevel(level);
  }

  /** `pm_async_enabled` and `pm_test_level`. */
  class PmControls {
    var asyncEnabled: int
    var testLevel: int

    constructor ()
      ensures asyncEnabled == 1 && testLevel == TEST_NONE
    {
      asyncEnabled := 1;
      testLevel := TEST_NONE;
    }

    /** `pm_async_store`: `parsed` is what `strict_strtoul` read, `None`
        when it failed; only 0 and 1 are accepted. */
    method AsyncStore(parsed: Option<nat>, n: nat) returns (ret: int)
      modifies this`asyncEnabled
      ensures parsed.Some? && parsed.value <= 1 ==> ret == n && asyncEnabled == parsed.value
      ensures !(parsed.Some? && parsed.value <= 1) ==> ret == -EINVAL && asyncEnabled == old(asyncEnabled)
    {
      if parsed.None? {
        return -EINVAL;
      }
      if parsed.value > 1 {
        return -EINVAL;
      }
      asyncEnabled := parsed.value;
      return n;
    }

    /** `pm_test_store`: the text up to the first newline must be exactly
        the name of a level. */
    method TestStore(buf: string) returns (ret: int)
      modifies this`testLevel
      ensures var level := LevelNamed(buf[..CommandLength(buf)]);
        && (level.Some? ==> ret == |buf| && testLevel == level.value)
        && (level.None? ==> ret == -EINVAL && testLevel == old(testLevel))
    {
      var len := CommandLength(buf);
      var word := buf[..len];
      var error := -EINVAL;
      var level := TEST_FIRST;
      while level <= TEST_MAX
        invariant TEST_FIRST <= level <= TEST_MAX + 1
        invariant LevelNamed(word) == LevelNamedFrom(word, level)
        invariant testLevel == old(testLevel)
      {
        if |word| == |PM_TESTS[level]| && word == PM_TESTS[level] {
          testLevel := level;
          error := 0;
          break;
        }
        level := level + 1;
      }
      ret := if error != 0 then error else |buf|;
    }

    /** `pm_test_show` */
    method TestShow() returns (text: string)
      ensures text == TestShowText(testLevel)
    {
      var current := testLevel;
      text := "";
      var level := TEST_FIRST;
      while level <= TEST_MAX
        invariant TEST_FIRST <= level <= TEST_MAX + 1
        invariant text == ShowWords(current, level)
      {
        var word;
        if level == current {
          word := "[" + PM_TESTS[level] + "] ";
        } else {
          word := PM_TESTS[level] + " ";
        }
        assert word == ShowWord(level, current);
        text := text + word;
        level := level + 1;
      }
      ghost var words := text;
      if text != "" {
        text := text[..|text| - 1] + "\n";
      }
      assert text == LastSpaceToNewline(words);
    }
  }
}
