/**
 * The configuration file reader (config.c): each line is scanned for a
 * `name = value` pair, the name is looked up in the table of settings, and
 * the setting's handler stores the value in the global settings, clamping
 * numbers that are out of range to their defaults.
 *
 * A line is the text before its first NUL.  bolt_atoi and bolt_strndup are
 * not part of this model: what bolt_atoi makes of a value is the function
 * `atoi` (None when it reports -1), and whether bolt_strndup's allocation
 * succeeds is `dupOk`.
 *
 * main (bolt.c:179-199) never calls bolt_read_confs, so the two defects of
 * the reader modelled below, in the scanner and in the logmark handler, do
 * not show in the program as it stands; they show once a configuration file
 * is read.
 */
module Config {
  import opened Base
  import opened Bolt

  // The log levels of log.h:4-7.
  const LOG_DEBUG: int := 0
  const LOG_NOTICE: int := 1
  const LOG_ALERT: int := 2
  const LOG_ERROR: int := 3

  // The scanner (config.c:81-159).

  predicate IsBlank(c: char)
  {
    c == ' ' || c == '\t'
  }

  /** A name ends at a space or an '=' (config.c:108-114); a tab is part of it. */
  predicate EndsName(c: char)
  {
    c == ' ' || c == '='
  }

  /** A value ends at a blank, a line end or a comment (config.c:139-143). */
  predicate EndsValue(c: char)
  {
    c == ' ' || c == '\t' || c == '\n' || c == '\r' || c == '#'
  }

  /** The first position from `i` on that holds no blank, or the end. */
  function SkipBlanks(s: string, i: nat): (r: nat)
    requires i <= |s|
    ensures i <= r <= |s|
    ensures r < |s| ==> !IsBlank(s[r])
    decreases |s| - i
  {
    if i == |s| || !IsBlank(s[i]) then i else SkipBlanks(s, i + 1)
  }

  /** Where a name read from `i` on ends, or the end of the line. */
  function NameEnd(s: string, i: nat): (r: nat)
    requires i <= |s|
    ensures i <= r <= |s|
    ensures r < |s| ==> EndsName(s[r])
    decreases |s| - i
  {
    if i == |s| || EndsName(s[i]) then i else NameEnd(s, i + 1)
  }

  /** Where a value read from `i` on ends, or the end of the line. */
  function ValueEnd(s: string, i: nat): (r: nat)
    requires i <= |s|
    ensures i <= r <= |s|
    ensures r < |s| ==> EndsValue(s[r])
    decreases |s| - i
  {
    if i == |s| || EndsValue(s[i]) then i else ValueEnd(s, i + 1)
  }

  /** What the scanner finds on a line: a comment, nothing it accepts, or a
      name and its value. */
  datatype Scan = Comment | Malformed | Setting(name: string, value: string)

  /** The line as the scanner reads it, when the character that ends a blank
      run and starts the name (`dropped` false) or the value is read as part
      of them, or (`dropped` true) is skipped.  Blanks come first; a '#' there
      makes the line a comment.  The name runs up to a space or '='; after a
      space only blanks may come before the '='.  Blanks follow, then the
      value, which must end with a blank, a line end or '#' before the line
      ends. */
  function ScanWith(s: string, dropped: bool): Scan
  {
    var i0 := SkipBlanks(s, 0);
    if i0 == |s| then Malformed
    else if s[i0] == '#' then Comment
    else
      var n0 := if dropped then i0 + 1 else i0;
      var j := NameEnd(s, n0);
      if j == |s| then Malformed
      else
        var k := if s[j] == '=' then j else SkipBlanks(s, j + 1);
        if k == |s| || s[k] != '=' then Malformed
        else
          var v0 := SkipBlanks(s, k + 1);
          if v0 == |s| then Malformed
          else
            var w0 := if dropped then v0 + 1 else v0;
            var e := ValueEnd(s, w0);
            if e == |s| then Malformed else Setting(s[n0..j], s[w0..e])
  }

  /** The scanner as intended: the name and the value start with the first
      character that is not blank. */
  function ScanLine(s: string): Scan
  {
    ScanWith(s, false)
  }

  /** The scanner as written (config.c:104, 133): the switch moves to the
      read_name and read_value states on a character and then leaves that
      character behind, so the first character of the name and of the value
      is lost. */
  function ScanAsWritten(s: string): Scan
  {
    ScanWith(s, true)
  }

  /** The scanner's states (config.c:84-90). */
  datatype State = WantName | ReadName | WantEqual | WantValue | ReadValue

  function Rank(st: State): nat
  {
    match st
    case WantName => 4
    case ReadName => 3
    case WantEqual => 2
    case WantValue => 1
    case ReadValue => 0
  }

  /** What the scanner has seen of `line` before position `i`, in state `st`,
      with `name` and `value` read so far; `i0`, `j`, `k` and `v0` are where
      the name started, the name ended, the '=' stood and the value started. */
  ghost predicate Seen(line: string, i: nat, st: State, name: string, value: string, i0: nat, j: nat, k: nat, v0: nat)
  {
    && i <= |line|
    && (st == WantName ==> name == "")
    && (st != ReadValue ==> value == "")
    && (st == WantName ==> SkipBlanks(line, i) == SkipBlanks(line, 0))
    && (st != WantName ==> i0 == SkipBlanks(line, 0) < |line| && line[i0] != '#' && i0 <= i)
    && (st == ReadName ==> NameEnd(line, i) == NameEnd(line, i0) && name == line[i0..i])
    && (st in {WantEqual, WantValue, ReadValue} ==> j == NameEnd(line, i0) < i && name == line[i0..j])
    && (st == WantEqual ==> line[j] == ' ' && SkipBlanks(line, i) == SkipBlanks(line, j + 1))
    && (st in {WantValue, ReadValue} ==>
          k == (if line[j] == '=' then j else SkipBlanks(line, j + 1)) && k < i && line[k] == '=')
    && (st == WantValue ==> SkipBlanks(line, i) == SkipBlanks(line, k + 1))
    && (st == ReadValue ==>
          v0 == SkipBlanks(line, k + 1) <= i && ValueEnd(line, i) == ValueEnd(line, v0) && value == line[v0..i])
  }

  /** The loop of bolt_parse_conf (config.c:95-158), with the character that
      moves it into read_name or read_value read again in that state. */
  method ScanConf(line: string) returns (sc: Scan)
    ensures sc == ScanLine(line)
  {
    var state := WantName;
    var name, value := "", "";
    var i := 0;
    ghost var i0, j, k, v0 := 0, 0, 0, 0;
    while i < |line|
      invariant Seen(line, i, state, name, value, i0, j, k, v0)
      decreases |line| - i, Rank(state)
    {
      var c := line[i];
      match state
      case WantName =>
        if IsBlank(c) {
          SeenBlank(line, i, state, name, value, i0, j, k, v0);
          i := i + 1;
        } else if c == '#' {
          SeenComment(line, i, name, value, i0, j, k, v0);
          return Comment;
        } else {
          SeenNameStart(line, i, name, value, i0, j, k, v0);
          state, i0 := ReadName, i;
        }
      case ReadName =>
        if c == ' ' {
          SeenNameEnd(line, i, name, value, i0, j, k, v0);
          state, j := WantEqual, i;
        } else if c == '=' {
          SeenNameEnd(line, i, name, value, i0, j, k, v0);
          state, j, k := WantValue, i, i;
        } else {
          SeenNameChar(line, i, name, value, i0, j, k, v0);
          name := name + [c];
        }
        i := i + 1;
      case WantEqual =>
        if IsBlank(c) {
          SeenBlank(line, i, state, name, value, i0, j, k, v0);
          i := i + 1;
        } else if c == '=' {
          SeenEqual(line, i, name, value, i0, j, k, v0);
          state, k := WantValue, i;
          i := i + 1;
        } else {
          SeenNoEqual(line, i, name, value, i0, j, k, v0);
          return Malformed;
        }
      case WantValue =>
        if IsBlank(c) {
          SeenBlank(line, i, state, name, value, i0, j, k, v0);
          i := i + 1;
        } else {
          SeenValueStart(line, i, name, value, i0, j, k, v0);
          state, v0 := ReadValue, i;
        }
      case ReadValue =>
        if EndsValue(c) {
          SeenValueEnd(line, i, name, value, i0, j, k, v0);
          return Setting(name, value);
        }
        SeenValueChar(line, i, name, value, i0, j, k, v0);
        value := value + [c];
        i := i + 1;
    }
    SeenAll(line, state, name, value, i0, j, k, v0);
    return Malformed;
  }

  // One lemma per move of the scanner: what it has seen stays described by Seen.

  lemma SeenBlank(line: string, i: nat, st: State, name: string, value: string, i0: nat, j: nat, k: nat, v0: nat)
    requires Seen(line, i, st, name, value, i0, j, k, v0) && i < |line| && IsBlank(line[i])
    requires st in {WantName, WantEqual, WantValue}
    ensures Seen(line, i + 1, st, name, value, i0, j, k, v0)
  {
  }

  lemma SeenComment(line: string, i: nat, name: string, value: string, i0: nat, j: nat, k: nat, v0: nat)
    requires Seen(line, i, WantName, name, value, i0, j, k, v0) && i < |line| && line[i] == '#'
    ensures ScanLine(line) == Comment
  {
  }

  lemma SeenNameStart(line: string, i: nat, name: string, value: string, i0: nat, j: nat, k: nat, v0: nat)
    requires Seen(line, i, WantName, name, value, i0, j, k, v0) && i < |line|
    requires !IsBlank(line[i]) && line[i] != '#' && name == ""
    ensures Seen(line, i, ReadName, name, value, i, j, k, v0)
  {
  }

  lemma SeenNameChar(line: string, i: nat, name: string, value: string, i0: nat, j: nat, k: nat, v0: nat)
    requires Seen(line, i, ReadName, name, value, i0, j, k, v0) && i < |line| && !EndsName(line[i])
    ensures Seen(line, i + 1, ReadName, name + [line[i]], value, i0, j, k, v0)
  {
    assert line[i0..i + 1] == line[i0..i] + [line[i]];
  }

  lemma SeenNameEnd(line: string, i: nat, name: string, value: string, i0: nat, j: nat, k: nat, v0: nat)
    requires Seen(line, i, ReadName, name, value, i0, j, k, v0) && i < |line| && EndsName(line[i])
    ensures line[i] == ' ' ==> Seen(line, i + 1, WantEqual, name, value, i0, i, k, v0)
    ensures line[i] == '=' ==> Seen(line, i + 1, WantValue, name, value, i0, i, i, v0)
  {
  }

  lemma SeenEqual(line: string, i: nat, name: string, value: string, i0: nat, j: nat, k: nat, v0: nat)
    requires Seen(line, i, WantEqual, name, value, i0, j, k, v0) && i < |line| && line[i] == '='
    ensures Seen(line, i + 1, WantValue, name, value, i0, j, i, v0)
  {
  }

  lemma SeenNoEqual(line: string, i: nat, name: string, value: string, i0: nat, j: nat, k: nat, v0: nat)
    requires Seen(line, i, WantEqual, name, value, i0, j, k, v0) && i < |line|
    requires !IsBlank(line[i]) && line[i] != '='
    ensures ScanLine(line) == Malformed
  {
  }

  lemma SeenValueStart(line: string, i: nat, name: string, value: string, i0: nat, j: nat, k: nat, v0: nat)
    requires Seen(line, i, WantValue, name, value, i0, j, k, v0) && i < |line| && !IsBlank(line[i])
    requires value == ""
    ensures Seen(line, i, ReadValue, name, value, i0, j, k, i)
  {
  }

  lemma SeenValueChar(line: string, i: nat, name: string, value: string, i0: nat, j: nat, k: nat, v0: nat)
    requires Seen(line, i, ReadValue, name, value, i0, j, k, v0) && i < |line| && !EndsValue(line[i])
    ensures Seen(line, i + 1, ReadValue, name, value + [line[i]], i0, j, k, v0)
  {
    assert line[v0..i + 1] == line[v0..i] + [line[i]];
  }

  lemma SeenValueEnd(line: string, i: nat, name: string, value: string, i0: nat, j: nat, k: nat, v0: nat)
    requires Seen(line, i, ReadValue, name, value, i0, j, k, v0) && i < |line| && EndsValue(line[i])
    ensures ScanLine(line) == Setting(name, value)
  {
  }

  lemma SeenAll(line: string, st: State, name: string, value: string, i0: nat, j: nat, k: nat, v0: nat)
    requires Seen(line, |line|, st, name, value, i0, j, k, v0)
    ensures ScanLine(line) == Malformed
  {
  }

  // Where the scanner's positions land on a line of known shape.

  lemma {:induction false} SkipBlanksOver(s: string, i: nat, j: nat)
    requires i <= j <= |s| && (forall m | i <= m < j :: IsBlank(s[m])) && (j < |s| ==> !IsBlank(s[j]))
    ensures SkipBlanks(s, i) == j
    decreases j - i
  {
    if i < j {
      SkipBlanksOver(s, i + 1, j);
    }
  }

  lemma {:induction false} NameEndOver(s: string, i: nat, j: nat)
    requires i <= j < |s| && (forall m | i <= m < j :: !EndsName(s[m])) && EndsName(s[j])
    ensures NameEnd(s, i) == j
    decreases j - i
  {
    if i < j {
      NameEndOver(s, i + 1, j);
    }
  }

  lemma {:induction false} ValueEndOver(s: string, i: nat, j: nat)
    requires i <= j <= |s| && (forall m | i <= m < j :: !EndsValue(s[m])) && (j < |s| ==> EndsValue(s[j]))
    ensures ValueEnd(s, i) == j
    decreases j - i
  {
    if i < j {
      ValueEndOver(s, i + 1, j);
    }
  }

  /** A line whose first character that is not blank is '#' is a comment
      (config.c:97-102). */
  lemma CommentLine(blanks: string, rest: string)
    requires forall m | 0 <= m < |blanks| :: IsBlank(blanks[m])
    ensures ScanLine(blanks + "#" + rest) == Comment
    ensures ScanAsWritten(blanks + "#" + rest) == Comment
  {
    var s := blanks + "#" + rest;
    SkipBlanksOver(s, 0, |blanks|);
  }

  /** A line of blanks alone is not accepted: its line end is taken for the
      start of a name that never ends (config.c:104, 158). */
  lemma BlankLineRejected(blanks: string)
    requires forall m | 0 <= m < |blanks| :: IsBlank(blanks[m])
    ensures ScanLine(blanks + "\n") == Malformed
    ensures ScanAsWritten(blanks + "\n") == Malformed
  {
    var s := blanks + "\n";
    SkipBlanksOver(s, 0, |blanks|);
  }

  /** A name the scanner can read back: it starts with a character that is not
      blank and not '#', and holds no space and no '='. */
  predicate GoodName(name: string)
  {
    |name| >= 1 && !IsBlank(name[0]) && name[0] != '#' && forall m | 0 <= m < |name| :: !EndsName(name[m])
  }

  /** A value the scanner can read back: not empty, and holding no blank, line
      end or '#'. */
  predicate GoodValue(value: string)
  {
    |value| >= 1 && forall m | 0 <= m < |value| :: !EndsValue(value[m])
  }

  /** After a name and a space, anything but blanks and '=' makes the line
      unacceptable (config.c:118-125). */
  lemma NoEqualRejected(name: string, blanks: string, c: char, rest: string)
    requires GoodName(name) && (forall m | 0 <= m < |blanks| :: IsBlank(blanks[m]))
    requires !IsBlank(c) && c != '='
    ensures ScanLine(name + " " + blanks + [c] + rest) == Malformed
  {
    var s := name + " " + blanks + [c] + rest;
    var n := |name|;
    SkipBlanksOver(s, 0, 0);
    NameEndOver(s, 0, n);
    SkipBlanksOver(s, n + 1, n + 1 + |blanks|);
  }

  /** A value that the line ends in the middle of, with no blank, line end or
      '#' after it, makes the line unacceptable (config.c:138-158). */
  lemma UnterminatedRejected(name: string, value: string)
    requires GoodName(name) && GoodValue(value)
    ensures ScanLine(name + " = " + value) == Malformed
  {
    var s := name + " = " + value;
    var n := |name|;
    SkipBlanksOver(s, 0, 0);
    NameEndOver(s, 0, n);
    SkipBlanksOver(s, n + 1, n + 1);
    SkipBlanksOver(s, n + 2, n + 3);
    ValueEndOver(s, n + 3, |s|);
  }

  /** The line "name = value" as a configuration file holds it. */
  function Assignment(name: string, value: string): string
  {
    name + " = " + value + "\n"
  }

  /** Where the positions of the scanner fall on an assignment line: the name
      ends at its length, the '=' follows a space, and the value starts three
      characters after the name and ends at the line end. */
  lemma AssignmentPositions(name: string, value: string)
    requires GoodName(name) && GoodValue(value)
    ensures var s := Assignment(name, value);
            var n := |name|;
            && SkipBlanks(s, 0) == 0 && s[0] != '#'
            && NameEnd(s, 0) == n && NameEnd(s, 1) == n && s[n] == ' '
            && SkipBlanks(s, n + 1) == n + 1 && s[n + 1] == '='
            && SkipBlanks(s, n + 2) == n + 3
            && ValueEnd(s, n + 3) == n + 3 + |value| && ValueEnd(s, n + 4) == n + 3 + |value|
            && |s| == n + 4 + |value|
            && s[..n] == name && s[n + 3..n + 3 + |value|] == value
  {
    var s := Assignment(name, value);
    var n := |name|;
    assert s[..n] == name;
    assert s[n + 3..n + 3 + |value|] == value;
    SkipBlanksOver(s, 0, 0);
    NameEndOver(s, 0, n);
    NameEndOver(s, 1, n);
    SkipBlanksOver(s, n + 1, n + 1);
    SkipBlanksOver(s, n + 2, n + 3);
    ValueEndOver(s, n + 3, n + 3 + |value|);
    ValueEndOver(s, n + 4, n + 3 + |value|);
  }

  /** The intended scanner reads an assignment line back as its name and value. */
  lemma AssignmentScans(name: string, value: string)
    requires GoodName(name) && GoodValue(value)
    ensures ScanLine(Assignment(name, value)) == Setting(name, value)
  {
    AssignmentPositions(name, value);
  }

  /** The scanner as written reads an assignment line without the first
      character of its name and of its value. */
  lemma AssignmentScansAsWritten(name: string, value: string)
    requires GoodName(name) && GoodValue(value)
    ensures ScanAsWritten(Assignment(name, value)) == Setting(name[1..], value[1..])
  {
    AssignmentPositions(name, value);
    var s := Assignment(name, value);
    var n := |name|;
    assert s[1..n] == name[1..];
    assert s[n + 4..n + 3 + |value|] == value[1..];
  }

  // The table of settings (config.c:51-78).

  datatype Item = Host | Port | Workers | Logfile | Logmark | MaxCache | GcThreshold | Path | Watermark | Daemon

  /** The settings in table order. */
  const Table: seq<Item> := [Host, Port, Workers, Logfile, Logmark, MaxCache, GcThreshold, Path, Watermark, Daemon]

  function Name(item: Item): string
  {
    match item
    case Host => "host"
    case Port => "port"
    case Workers => "workers"
    case Logfile => "logfile"
    case Logmark => "logmark"
    case MaxCache => "max-cache"
    case GcThreshold => "gc-threshold"
    case Path => "path"
    case Watermark => "watermark"
    case Daemon => "daemon"
  }

  /** `strncmp(a, b, n) == 0` for C strings `a` and `b` without their
      terminators: the first `n` characters agree, or both strings end, equal,
      before `n`. */
  predicate StrnEq(a: string, b: string, n: nat)
  {
    (n <= |a| && n <= |b| && a[..n] == b[..n]) || (|a| == |b| && |a| < n && a == b)
  }

  /** Compared over its own length, as the scanner's name and value are, a
      text is equal to a string exactly when it is a prefix of it. */
  lemma StrnEqPrefix(a: string, b: string)
    ensures StrnEq(a, b, |a|) <==> |a| <= |b| && a == b[..|a|]
  {
  }

  /** The lookup's test (config.c:72): the name read, over its own length. */
  predicate Matches(name: string, item: Item)
  {
    StrnEq(name, Name(item), |name|)
  }

  /** The first position of the table from `i` on whose setting matches. */
  function ItemIndex(name: string, i: nat): (r: nat)
    requires i <= |Table|
    ensures i <= r <= |Table|
    ensures forall m | i <= m < r :: !Matches(name, Table[m])
    ensures r < |Table| ==> Matches(name, Table[r])
    decreases |Table| - i
  {
    if i == |Table| || Matches(name, Table[i]) then i else ItemIndex(name, i + 1)
  }

  /** The setting a name selects: the first in table order that the name is a
      prefix of, or none. */
  function ItemFor(name: string): (r: Option<Item>)
    ensures r.None? <==> forall m | 0 <= m < |Table| :: !Matches(name, Table[m])
    ensures r.Some? ==> exists m | 0 <= m < |Table| ::
              Table[m] == r.value && Matches(name, r.value) && forall m' | 0 <= m' < m :: !Matches(name, Table[m'])
  {
    var m := ItemIndex(name, 0);
    if m < |Table| then Some(Table[m]) else None
  }

  /** bolt_conf_find_item (config.c:66-78): the table is searched in order. */
  method FindItem(name: string) returns (r: Option<Item>)
    ensures r == ItemFor(name)
  {
    var m := 0;
    while m < |Table|
      invariant 0 <= m <= |Table|
      invariant ItemIndex(name, m) == ItemIndex(name, 0)
    {
      if StrnEq(name, Name(Table[m]), |name|) {
        return Some(Table[m]);
      }
      m := m + 1;
    }
    return None;
  }

  /** Every setting is selected by its full name: no name is a prefix of one
      before it in the table. */
  lemma FullNamesSelect(item: Item)
    ensures ItemFor(Name(item)) == Some(item)
  {
    assert Table[Index(item)] == item;
    forall other | Matches(Name(item), other)
      ensures other == item
    {
      OnlyOwnName(item, other);
    }
  }

  /** Every name of a setting can be read back by the scanner. */
  lemma NamesGood(item: Item)
    ensures GoodName(Name(item))
  {
    var name := Name(item);
    forall m | 0 <= m < |name|
      ensures !EndsName(name[m])
    {
      assert 'a' <= name[m] <= 'z' || name[m] == '-';
    }
  }

  /** The position of a setting in the table. */
  function Index(item: Item): (m: nat)
    ensures m < |Table| && Table[m] == item
  {
    match item
    case Host => 0
    case Port => 1
    case Workers => 2
    case Logfile => 3
    case Logmark => 4
    case MaxCache => 5
    case GcThreshold => 6
    case Path => 7
    case Watermark => 8
    case Daemon => 9
  }

  /** No name of a setting is a prefix of the name of another. */
  lemma OnlyOwnName(item: Item, other: Item)
    requires Matches(Name(item), other)
    ensures other == item
  {
    var name := Name(item);
    MatchesAt(name, other, 0);
    MatchesAt(name, other, 1);
    MatchesAt(name, other, 3);
  }

  /** A name that matches agrees with the setting's name letter by letter. */
  lemma MatchesAt(name: string, item: Item, m: nat)
    requires Matches(name, item) && m < |name|
    ensures m < |Name(item)| && name[m] == Name(item)[m]
  {
  }

  /** An empty name is a prefix of every name, so it selects the first
      setting, the host. */
  lemma EmptyNameSelectsHost()
    ensures ItemFor("") == Some(Host)
  {
    assert Matches("", Host);
  }

  /** No setting is selected by its name without the first character, which is
      what the scanner as written passes on. */
  lemma ClippedNamesSelectNothing(item: Item)
    ensures ItemFor(Name(item)[1..]) == None
  {
    var clipped := Name(item)[1..];
    assert clipped[0] == Name(item)[1];
    forall m | 0 <= m < |Table|
      ensures !Matches(clipped, Table[m])
    {
      if Matches(clipped, Table[m]) {
        MatchesInitial(clipped, Table[m]);
        assert false;
      }
    }
  }

  /** A name that is not empty matches only settings with its first letter. */
  lemma MatchesInitial(name: string, item: Item)
    requires |name| >= 1 && Matches(name, item)
    ensures name[0] == Name(item)[0]
  {
  }

  // The handlers (config.c:189-351).

  /** config.c:213-215: a port at most 0 becomes 80. */
  function PortOf(n: int): (p: int)
    ensures p >= 1 && (n >= 1 ==> p == n) && (n <= 0 ==> p == 80)
  {
    if n <= 0 then 80 else n
  }

  /** config.c:231-233: a worker count at most 0 becomes 5. */
  function WorkersOf(n: int): (w: int)
    ensures w >= 1 && (n >= 1 ==> w == n) && (n <= 0 ==> w == 5)
  {
    if n <= 0 then 5 else n
  }

  /** config.c:278-280: a cache size below the smallest allowed becomes it. */
  function MaxCacheOf(n: int): (m: int)
    ensures m >= MIN_CACHE_SIZE && (n >= MIN_CACHE_SIZE ==> m == n) && (n < MIN_CACHE_SIZE ==> m == MIN_CACHE_SIZE)
  {
    if n < MIN_CACHE_SIZE then MIN_CACHE_SIZE else n
  }

  /** config.c:296-300: a threshold outside 0 to 99 percent becomes 80. */
  function GcThresholdOf(n: int): (g: int)
    ensures 0 <= g < 100 && (0 <= n < 100 ==> g == n) && (n < 0 || n >= 100 ==> g == 80)
  {
    if n < 0 || n >= 100 then 80 else n
  }

  /** The log level a value names (config.c:253-263, comparing the value each
      time): the first of DEBUG, NOTICE, ALERT and ERROR it is a prefix of.
      The four names start with different letters, so a value that is not
      empty is a prefix of at most one of them, and the order of the tests
      matters only for the empty value, which selects DEBUG. */
  function LogLevel(value: string): (level: Option<int>)
    ensures level.Some? ==> LOG_DEBUG <= level.value <= LOG_ERROR
    ensures level == Some(LOG_DEBUG) <==> StrnEq(value, "DEBUG", |value|)
    ensures value != "" ==> (level == Some(LOG_NOTICE) <==> StrnEq(value, "NOTICE", |value|))
    ensures value != "" ==> (level == Some(LOG_ALERT) <==> StrnEq(value, "ALERT", |value|))
    ensures value != "" ==> (level == Some(LOG_ERROR) <==> StrnEq(value, "ERROR", |value|))
    ensures level.None? <==> forall w | w in ["DEBUG", "NOTICE", "ALERT", "ERROR"] :: !StrnEq(value, w, |value|)
  {
    PrefixInitial(value, "DEBUG");
    PrefixInitial(value, "NOTICE");
    PrefixInitial(value, "ALERT");
    PrefixInitial(value, "ERROR");
    if StrnEq(value, "DEBUG", |value|) then Some(LOG_DEBUG)
    else if StrnEq(value, "NOTICE", |value|) then Some(LOG_NOTICE)
    else if StrnEq(value, "ALERT", |value|) then Some(LOG_ALERT)
    else if StrnEq(value, "ERROR", |value|) then Some(LOG_ERROR)
    else None
  }

  /** A text that is not empty and is a prefix of `w` starts with `w`'s first
      letter. */
  lemma PrefixInitial(text: string, w: string)
    ensures |text| >= 1 && StrnEq(text, w, |text|) ==> |w| >= 1 && text[0] == w[0]
  {
    if |text| >= 1 && StrnEq(text, w, |text|) {
      assert text[..|text|][0] == text[0];
    }
  }

  /** The log level as written (config.c:255-259): after DEBUG, the text
      compared is getopt's `optarg`, the argument of the last command-line
      option read, not the value. */
  function LogLevelAsWritten(value: string, optarg: string): (level: Option<int>)
    ensures level.Some? ==> LOG_DEBUG <= level.value <= LOG_ERROR
  {
    if StrnEq(value, "DEBUG", |value|) then Some(LOG_DEBUG)
    else if StrnEq(optarg, "NOTICE", |value|) then Some(LOG_NOTICE)
    else if StrnEq(optarg, "ALERT", |value|) then Some(LOG_ALERT)
    else if StrnEq(optarg, "ERROR", |value|) then Some(LOG_ERROR)
    else None
  }

  /** "logmark = NOTICE" after the option "-w 5", which leaves "5" in
      `optarg`, is rejected as written, though the value names a level. */
  lemma LogLevelIgnoresValue()
    ensures LogLevel("NOTICE") == Some(LOG_NOTICE)
    ensures LogLevelAsWritten("NOTICE", "5").None?
  {
    assert "NOTICE"[0] != "DEBUG"[0];
    assert "NOTICE"[..6] == "NOTICE"[..6];
  }

  /** `tolower` on ASCII letters. */
  function Lower(c: char): char
  {
    if 'A' <= c <= 'Z' then (c as int + 32) as char else c
  }

  /** `strncasecmp(value, word, |value|) == 0`: the value is a prefix of the
      word, ignoring case. */
  predicate CasePrefix(value: string, word: string)
  {
    |value| <= |word| && forall m | 0 <= m < |value| :: Lower(value[m]) == Lower(word[m])
  }

  /** config.c:341-348: daemon mode is on when the value starts "yes", "1" or
      "on" in any case. */
  predicate DaemonOn(value: string)
  {
    CasePrefix(value, "yes") || CasePrefix(value, "1") || CasePrefix(value, "on")
  }

  /** The settings config.c writes.  Strings a failed copy left NULL are None. */
  datatype Options = Options(
    host: Option<string>, port: int, workers: int, logfile: Option<string>, logmark: int,
    maxCache: int, gcThreshold: int, path: Option<string>, pathLen: int,
    watermark: Option<string>, watermarkEnable: bool, daemon: bool)

  /** What a handler returns and the settings it leaves. */
  datatype Outcome = Outcome(r: int, options: Options)

  /** The handler of `item` on `value` (config.c:192-351).  A string setting
      takes a copy of the value, or NULL with -1 when the copy fails; a number
      setting takes bolt_atoi's number, clamped, or is left alone with -1 when
      bolt_atoi fails. */
  function Handle(o: Options, item: Item, value: string, atoi: string -> Option<int>, dupOk: bool): (out: Outcome)
    ensures out.r == 0 || out.r == -1
  {
    match item
    case Host => if dupOk then Outcome(0, o.(host := Some(value))) else Outcome(-1, o.(host := None))
    case Port =>
      (match atoi(value)
       case None => Outcome(-1, o)
       case Some(n) => Outcome(0, o.(port := PortOf(n))))
    case Workers =>
      (match atoi(value)
       case None => Outcome(-1, o)
       case Some(n) => Outcome(0, o.(workers := WorkersOf(n))))
    case Logfile => if dupOk then Outcome(0, o.(logfile := Some(value))) else Outcome(-1, o.(logfile := None))
    case Logmark =>
      (match LogLevel(value)
       case None => Outcome(-1, o)
       case Some(level) => Outcome(0, o.(logmark := level)))
    case MaxCache =>
      (match atoi(value)
       case None => Outcome(-1, o)
       case Some(n) => Outcome(0, o.(maxCache := MaxCacheOf(n))))
    case GcThreshold =>
      (match atoi(value)
       case None => Outcome(-1, o)
       case Some(n) => Outcome(0, o.(gcThreshold := GcThresholdOf(n))))
    case Path =>
      if |value| == 0 then Outcome(-1, o)
      else if dupOk then Outcome(0, o.(path := Some(value), pathLen := |value|))
      else Outcome(-1, o.(path := None))
    case Watermark =>
      if dupOk then Outcome(0, o.(watermark := Some(value), watermarkEnable := true))
      else Outcome(-1, o.(watermark := None))
    case Daemon => Outcome(0, o.(daemon := DaemonOn(value)))
  }

  /** The settings in the ranges the handlers keep them in. */
  predicate InRange(o: Options)
  {
    && o.port >= 1 && o.workers >= 1 && o.maxCache >= MIN_CACHE_SIZE && 0 <= o.gcThreshold < 100
    && LOG_DEBUG <= o.logmark <= LOG_ERROR
    && (o.path.Some? ==> o.pathLen == |o.path.value| >= 1)
  }

  /** A handler that succeeds leaves its setting in range, and a handler never
      takes a setting out of range. */
  lemma HandleInRange(o: Options, item: Item, value: string, atoi: string -> Option<int>, dupOk: bool)
    ensures var out := Handle(o, item, value, atoi, dupOk);
            && (InRange(o) ==> InRange(out.options))
            && (out.r == 0 && item == Port ==> out.options.port >= 1)
            && (out.r == 0 && item == Workers ==> out.options.workers >= 1)
            && (out.r == 0 && item == MaxCache ==> out.options.maxCache >= MIN_CACHE_SIZE)
            && (out.r == 0 && item == GcThreshold ==> 0 <= out.options.gcThreshold < 100)
            && (out.r == 0 && item == Path ==> out.options.path == Some(value) && out.options.pathLen == |value| >= 1)
  {
  }

  /** A handler that fails changes nothing, except the string a failed copy
      left NULL. */
  lemma HandleFailure(o: Options, item: Item, value: string, atoi: string -> Option<int>, dupOk: bool)
    ensures var out := Handle(o, item, value, atoi, dupOk);
            out.r == -1 ==>
              || out.options == o
              || (!dupOk && item == Host && out.options == o.(host := None))
              || (!dupOk && item == Logfile && out.options == o.(logfile := None))
              || (!dupOk && item == Path && out.options == o.(path := None))
              || (!dupOk && item == Watermark && out.options == o.(watermark := None))
  {
  }

  /** What bolt_parse_conf makes of a scanned line: a comment returns 0, a
      line the scanner does not accept or whose name selects no setting
      returns -1, and otherwise the setting's handler decides. */
  function Dispatch(o: Options, sc: Scan, atoi: string -> Option<int>, dupOk: bool): Outcome
  {
    match sc
    case Comment => Outcome(0, o)
    case Malformed => Outcome(-1, o)
    case Setting(name, value) =>
      (match ItemFor(name)
       case None => Outcome(-1, o)
       case Some(item) => Handle(o, item, value, atoi, dupOk))
  }

  /** bolt_parse_conf on a line, with the intended scanner. */
  function Conf(o: Options, line: string, atoi: string -> Option<int>, dupOk: bool): Outcome
  {
    Dispatch(o, ScanLine(line), atoi, dupOk)
  }

  /** bolt_parse_conf on a line, as written. */
  function ConfAsWritten(o: Options, line: string, atoi: string -> Option<int>, dupOk: bool): Outcome
  {
    Dispatch(o, ScanAsWritten(line), atoi, dupOk)
  }

  /** An assignment line sets what the handler of its name sets. */
  lemma AssignmentApplies(o: Options, item: Item, value: string, atoi: string -> Option<int>, dupOk: bool)
    requires GoodValue(value)
    ensures Conf(o, Assignment(Name(item), value), atoi, dupOk) == Handle(o, item, value, atoi, dupOk)
  {
    FullNamesSelect(item);
    NamesGood(item);
    AssignmentScans(Name(item), value);
    DispatchSelected(o, Name(item), value, item, atoi, dupOk);
  }

  /** A setting line whose name selects `item` runs its handler. */
  lemma DispatchSelected(o: Options, name: string, value: string, item: Item, atoi: string -> Option<int>, dupOk: bool)
    requires ItemFor(name) == Some(item)
    ensures Dispatch(o, Setting(name, value), atoi, dupOk) == Handle(o, item, value, atoi, dupOk)
  {
  }

  /** As written, no assignment line of any setting is accepted: the clipped
      name selects nothing, so the line is rejected and nothing changes.
      "port = 80" is such a line. */
  lemma AssignmentRejectedAsWritten(o: Options, item: Item, value: string, atoi: string -> Option<int>, dupOk: bool)
    requires GoodValue(value)
    ensures ConfAsWritten(o, Assignment(Name(item), value), atoi, dupOk) == Outcome(-1, o)
  {
    NamesGood(item);
    AssignmentScansAsWritten(Name(item), value);
    ClippedNamesSelectNothing(item);
  }

  /** A comment line returns 0 and changes nothing, either way. */
  lemma CommentIgnored(o: Options, blanks: string, rest: string, atoi: string -> Option<int>, dupOk: bool)
    requires forall m | 0 <= m < |blanks| :: IsBlank(blanks[m])
    ensures Conf(o, blanks + "#" + rest, atoi, dupOk) == Outcome(0, o)
    ensures ConfAsWritten(o, blanks + "#" + rest, atoi, dupOk) == Outcome(0, o)
  {
    CommentLine(blanks, rest);
  }

  /** The global settings (`setting`), which the handlers update in place. */
  class Settings {
    var host: Option<string>
    var port: int
    var workers: int
    var logfile: Option<string>
    var logmark: int
    var maxCache: int
    var gcThreshold: int
    var path: Option<string>
    var pathLen: int
    var watermark: Option<string>
    var watermarkEnable: bool
    var daemon: bool

    /** Zeroed, as main's memset leaves them. */
    constructor ()
      ensures Snapshot() == Options(None, 0, 0, None, 0, 0, 0, None, 0, None, false, false)
    {
      host, port, workers, logfile, logmark := None, 0, 0, None, 0;
      maxCache, gcThreshold, path, pathLen := 0, 0, None, 0;
      watermark, watermarkEnable, daemon := None, false, false;
    }

    function Snapshot(): Options
      reads this
    {
      Options(host, port, workers, logfile, logmark, maxCache, gcThreshold, path, pathLen,
              watermark, watermarkEnable, daemon)
    }

    /** bolt_conf_parse_host (config.c:192-200). */
    method ParseHost(value: string, dupOk: bool) returns (r: int)
      modifies this
      ensures Outcome(r, Snapshot()) == Handle(old(Snapshot()), Host, value, _ => None, dupOk)
    {
      host := if dupOk then Some(value) else None;
      return if dupOk then 0 else -1;
    }

    /** bolt_conf_parse_port (config.c:203-218). */
    method ParsePort(value: string, atoi: string -> Option<int>) returns (r: int)
      modifies this
      ensures Outcome(r, Snapshot()) == Handle(old(Snapshot()), Port, value, atoi, true)
    {
      var n := atoi(value);
      if n.None? {
        return -1;
      }
      port := n.value;
      if port <= 0 {
        port := 80;
      }
      return 0;
    }

    /** bolt_conf_parse_workers (config.c:221-236). */
    method ParseWorkers(value: string, atoi: string -> Option<int>) returns (r: int)
      modifies this
      ensures Outcome(r, Snapshot()) == Handle(old(Snapshot()), Workers, value, atoi, true)
    {
      var n := atoi(value);
      if n.None? {
        return -1;
      }
      workers := n.value;
      if workers <= 0 {
        workers := 5;
      }
      return 0;
    }

    /** bolt_conf_parse_logfile (config.c:239-247). */
    method ParseLogfile(value: string, dupOk: bool) returns (r: int)
      modifies this
      ensures Outcome(r, Snapshot()) == Handle(old(Snapshot()), Logfile, value, _ => None, dupOk)
    {
      logfile := if dupOk then Some(value) else None;
      return if dupOk then 0 else -1;
    }

    /** bolt_conf_parse_logmark (config.c:250-265), comparing the value each
        time. */
    method ParseLogmark(value: string) returns (r: int)
      modifies this
      ensures Outcome(r, Snapshot()) == Handle(old(Snapshot()), Logmark, value, _ => None, true)
    {
      if StrnEq(value, "DEBUG", |value|) {
        logmark := LOG_DEBUG;
      } else if StrnEq(value, "NOTICE", |value|) {
        logmark := LOG_NOTICE;
      } else if StrnEq(value, "ALERT", |value|) {
        logmark := LOG_ALERT;
      } else if StrnEq(value, "ERROR", |value|) {
        logmark := LOG_ERROR;
      } else {
        return -1;
      }
      return 0;
    }

    /** bolt_conf_parse_maxcache (config.c:268-283). */
    method ParseMaxCache(value: string, atoi: string -> Option<int>) returns (r: int)
      modifies this
      ensures Outcome(r, Snapshot()) == Handle(old(Snapshot()), MaxCache, value, atoi, true)
    {
      var n := atoi(value);
      if n.None? {
        return -1;
      }
      maxCache := n.value;
      if maxCache < MIN_CACHE_SIZE {
        maxCache := MIN_CACHE_SIZE;
      }
      return 0;
    }

    /** bolt_conf_parse_gcthreshold (config.c:286-303). */
    method ParseGcThreshold(value: string, atoi: string -> Option<int>) returns (r: int)
      modifies this
      ensures Outcome(r, Snapshot()) == Handle(old(Snapshot()), GcThreshold, value, atoi, true)
    {
      var n := atoi(value);
      if n.None? {
        return -1;
      }
      gcThreshold := n.value;
      if gcThreshold < 0 || gcThreshold >= 100 {
        gcThreshold := 80;
      }
      return 0;
    }

    /** bolt_conf_parse_path (config.c:306-321). */
    method ParsePath(value: string, dupOk: bool) returns (r: int)
      modifies this
      ensures Outcome(r, Snapshot()) == Handle(old(Snapshot()), Path, value, _ => None, dupOk)
    {
      if |value| <= 0 {
        return -1;
      }
      path := if dupOk then Some(value) else None;
      if !dupOk {
        return -1;
      }
      pathLen := |value|;
      return 0;
    }

    /** bolt_conf_parse_watermark (config.c:324-335). */
    method ParseWatermark(value: string, dupOk: bool) returns (r: int)
      modifies this
      ensures Outcome(r, Snapshot()) == Handle(old(Snapshot()), Watermark, value, _ => None, dupOk)
    {
      watermark := if dupOk then Some(value) else None;
      if !dupOk {
        return -1;
      }
      watermarkEnable := true;
      return 0;
    }

    /** bolt_conf_parse_daemon (config.c:338-351). */
    method ParseDaemon(value: string) returns (r: int)
      modifies this
      ensures Outcome(r, Snapshot()) == Handle(old(Snapshot()), Daemon, value, _ => None, true)
    {
      if CasePrefix(value, "yes") || CasePrefix(value, "1") || CasePrefix(value, "on") {
        daemon := true;
      } else {
        daemon := false;
      }
      return 0;
    }

    /** The handler call through the table (config.c:150). */
    method Apply(item: Item, value: string, atoi: string -> Option<int>, dupOk: bool) returns (r: int)
      modifies this
      ensures Outcome(r, Snapshot()) == Handle(old(Snapshot()), item, value, atoi, dupOk)
    {
      match item
      case Host => r := ParseHost(value, dupOk);
      case Port => r := ParsePort(value, atoi);
      case Workers => r := ParseWorkers(value, atoi);
      case Logfile => r := ParseLogfile(value, dupOk);
      case Logmark => r := ParseLogmark(value);
      case MaxCache => r := ParseMaxCache(value, atoi);
      case GcThreshold => r := ParseGcThreshold(value, atoi);
      case Path => r := ParsePath(value, dupOk);
      case Watermark => r := ParseWatermark(value, dupOk);
      case Daemon => r := ParseDaemon(value);
    }

    /** bolt_parse_conf (config.c:81-159) on one line: scan it, look the name
        up and run the setting's handler on the value. */
    method ParseConf(line: string, atoi: string -> Option<int>, dupOk: bool) returns (r: int)
      modifies this
      ensures Outcome(r, Snapshot()) == Conf(old(Snapshot()), line, atoi, dupOk)
    {
      var sc := ScanConf(line);
      match sc
      case Comment => return 0;
      case Malformed => return -1;
      case Setting(name, value) =>
        var item := FindItem(name);
        if item.None? {
          return -1;
        }
        r := Apply(item.value, value, atoi, dupOk);
    }
  }
}
