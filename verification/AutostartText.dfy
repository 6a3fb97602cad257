/** The Unraid autostart list as text: one container name and an optional delay on each line. */
module AutostartText {

  /** The whitespace that trimming and splitting skip, for a list of ASCII bytes. */
  predicate IsSpace(c: char) {
    c == ' ' || 9 <= c as int <= 13
  }

  predicate OneLine(line: string) {
    '\n' !in line
  }

  /** The text split at line feeds; the empty text is one empty line. */
  function Split(text: string): (lines: seq<string>)
    ensures |lines| >= 1
    ensures forall line | line in lines :: OneLine(line)
  {
    if text == "" then [""]
    else
      var rest := Split(text[1..]);
      assert OneLine(rest[0]);
      if text[0] == '\n' then [""] + rest else [[text[0]] + rest[0]] + rest[1..]
  }

  function Join(lines: seq<string>): string {
    if |lines| == 0 then ""
    else if |lines| == 1 then lines[0]
    else lines[0] + "\n" + Join(lines[1..])
  }

  function Word(line: string): string {
    if line == "" || IsSpace(line[0]) then "" else [line[0]] + Word(line[1..])
  }

  /** The container a line starts: its first word, or "" for a blank line. */
  function Name(line: string): string {
    if line == "" then "" else if IsSpace(line[0]) then Name(line[1..]) else Word(line)
  }

  function TrimEnd(line: string): string {
    if line != "" && IsSpace(line[|line| - 1]) then TrimEnd(line[..|line| - 1]) else line
  }

  function Trim(line: string): string {
    if line != "" && IsSpace(line[0]) then Trim(line[1..]) else TrimEnd(line)
  }

  /** The lines that start none of `names`, in order. */
  function Keep(lines: seq<string>, names: set<string>): (kept: seq<string>)
    ensures forall line :: line in kept <==> line in lines && Name(line) !in names
  {
    if lines == [] then []
    else
      var rest := Keep(lines[1..], names);
      if Name(lines[0]) in names then rest else [lines[0]] + rest
  }

  function Remove(text: string, names: set<string>): string {
    Join(Keep(Split(text), names))
  }

  function Listed(text: string): set<string> {
    set line | line in Split(text) :: Name(line)
  }

  /** Puts back the recorded lines whose container is not listed, above the list. */
  function Restore(text: string, lines: seq<string>): string {
    var missing := Keep(lines, Listed(text));
    if missing == [] then text else Join(missing + [text])
  }

  // What a list says: the lines of one container, and the lines of all containers but some.

  function Only(lines: seq<string>, name: string): (only: seq<string>)
    ensures forall line :: line in only <==> line in lines && Name(line) == name
  {
    if lines == [] then []
    else
      var rest := Only(lines[1..], name);
      if Name(lines[0]) == name then [lines[0]] + rest else rest
  }

  function LinesOf(text: string, name: string): seq<string> {
    Only(Split(text), name)
  }

  /** The other containers' lines in order; blank lines start nothing and are left out. */
  function Others(text: string, names: set<string>): seq<string> {
    Keep(Split(text), names + {""})
  }

  // Splitting and joining

  lemma {:induction false} SplitLine(line: string, text: string)
    requires OneLine(line)
    ensures Split(line + "\n" + text) == [line] + Split(text)
    ensures Split(line) == [line]
  {
    if line == "" {
      assert line + "\n" + text == "\n" + text;
    } else {
      assert (line + "\n" + text)[1..] == line[1..] + "\n" + text;
      assert line == [line[0]] + line[1..];
      SplitLine(line[1..], text);
    }
  }

  lemma JoinCons(line: string, lines: seq<string>)
    requires lines != []
    ensures Join([line] + lines) == line + "\n" + Join(lines)
  {
    assert ([line] + lines)[1..] == lines;
  }

  lemma ConsConcat(a: seq<string>, b: seq<string>)
    requires a != []
    ensures a + b == [a[0]] + (a[1..] + b)
  {
  }

  lemma SplitFirst(line: string, lines: seq<string>)
    requires OneLine(line) && lines != []
    ensures Split(Join([line] + lines)) == [line] + Split(Join(lines))
  {
    JoinCons(line, lines);
    SplitLine(line, Join(lines));
  }

  /** Lines written above a text come back as those lines followed by the text's own. */
  lemma {:induction false} SplitAbove(above: seq<string>, text: string)
    requires forall line | line in above :: OneLine(line)
    ensures Split(Join(above + [text])) == above + Split(text)
  {
    if above == [] {
      assert above + [text] == [text];
    } else {
      var line, rest := above[0], above[1..];
      SplitAbove(rest, text);
      SplitFirst(line, rest + [text]);
      ConsConcat(above, [text]);
      ConsConcat(above, Split(text));
    }
  }

  lemma SplitJoin(lines: seq<string>)
    requires forall line | line in lines :: OneLine(line)
    ensures Split(Join(lines)) == if lines == [] then [""] else lines
  {
    if lines != [] {
      var last := |lines| - 1;
      assert lines == lines[..last] + [lines[last]];
      SplitAbove(lines[..last], lines[last]);
      SplitLine(lines[last], "");
    }
  }

  lemma {:induction false} JoinSplit(text: string)
    ensures Join(Split(text)) == text
  {
    if text != "" {
      var rest := Split(text[1..]);
      JoinSplit(text[1..]);
      assert text == [text[0]] + text[1..];
      if text[0] == '\n' {
        assert ([""] + rest)[1..] == rest;
      } else {
        assert ([[text[0]] + rest[0]] + rest[1..])[1..] == rest[1..];
      }
    }
  }

  // Filters

  lemma {:induction false} KeepConcat(a: seq<string>, b: seq<string>, names: set<string>)
    ensures Keep(a + b, names) == Keep(a, names) + Keep(b, names)
  {
    if a == [] {
      assert a + b == b;
    } else {
      assert (a + b)[1..] == a[1..] + b;
      KeepConcat(a[1..], b, names);
    }
  }

  lemma {:induction false} OnlyConcat(a: seq<string>, b: seq<string>, name: string)
    ensures Only(a + b, name) == Only(a, name) + Only(b, name)
  {
    if a == [] {
      assert a + b == b;
    } else {
      assert (a + b)[1..] == a[1..] + b;
      OnlyConcat(a[1..], b, name);
    }
  }

  lemma {:induction false} KeepKeep(lines: seq<string>, inner: set<string>, outer: set<string>)
    ensures Keep(Keep(lines, inner), outer) == Keep(lines, inner + outer)
  {
    if lines != [] {
      KeepKeep(lines[1..], inner, outer);
    }
  }

  lemma {:induction false} OnlyKeep(lines: seq<string>, names: set<string>, name: string)
    ensures Only(Keep(lines, names), name) == if name in names then [] else Only(lines, name)
  {
    if lines != [] {
      OnlyKeep(lines[1..], names, name);
    }
  }

  lemma KeepNone(lines: seq<string>, names: set<string>)
    requires forall line | line in lines :: Name(line) in names
    ensures Keep(lines, names) == []
  {
    assert forall line :: line !in Keep(lines, names);
  }

  lemma OnlyNone(lines: seq<string>, name: string)
    requires forall line | line in lines :: Name(line) != name
    ensures Only(lines, name) == []
  {
    assert forall line :: line !in Only(lines, name);
  }

  lemma {:induction false} KeepAll(lines: seq<string>, names: set<string>)
    requires forall line | line in lines :: Name(line) !in names
    ensures Keep(lines, names) == lines
  {
    if lines != [] {
      KeepAll(lines[1..], names);
    }
  }

  /** Picking the one recorded line of a container out of lines with distinct names. */
  lemma {:induction false} OnlyDistinct(lines: seq<string>, k: nat)
    requires k < |lines|
    requires forall i, j | 0 <= i < j < |lines| :: Name(lines[i]) != Name(lines[j])
    ensures Only(lines, Name(lines[k])) == [lines[k]]
  {
    if k == 0 {
      OnlyNone(lines[1..], Name(lines[0]));
    } else {
      OnlyDistinct(lines[1..], k - 1);
    }
  }

  // What removing and restoring do to a list

  lemma SplitRemove(text: string, names: set<string>)
    ensures Split(Remove(text, names)) == var kept := Keep(Split(text), names); if kept == [] then [""] else kept
  {
    SplitJoin(Keep(Split(text), names));
  }

  /** Removing names drops exactly their lines and keeps every other line in order. */
  lemma RemoveEffect(text: string, names: set<string>, name: string, hidden: set<string>)
    requires name != ""
    ensures LinesOf(Remove(text, names), name) == if name in names then [] else LinesOf(text, name)
    ensures names <= hidden ==> Others(Remove(text, names), hidden) == Others(text, hidden)
  {
    var lines := Split(text);
    var kept := Keep(lines, names);
    SplitRemove(text, names);
    OnlyKeep(lines, names, name);
    KeepKeep(lines, names, hidden + {""});
    if names <= hidden {
      assert names + (hidden + {""}) == hidden + {""};
    }
    if kept == [] {
      assert Only([""], name) == [];
      assert Keep([""], hidden + {""}) == [];
    }
  }

  /** Removing names in turn is removing them together, so in any order and any number of times. */
  lemma RemoveUnion(text: string, first: set<string>, second: set<string>)
    requires "" !in first && "" !in second
    ensures Remove(Remove(text, first), second) == Remove(text, first + second)
  {
    var lines := Split(text);
    SplitRemove(text, first);
    KeepKeep(lines, first, second);
    if Keep(lines, first) == [] {
      assert Keep([""], second) == [""];
    }
  }

  lemma RemoveTwice(text: string, names: set<string>)
    requires "" !in names
    ensures Remove(Remove(text, names), names) == Remove(text, names)
  {
    RemoveUnion(text, names, names);
    assert names + names == names;
  }

  /** A list without these names has none of them after others are removed from it. */
  lemma StaysRemoved(text: string, names: set<string>, others: set<string>)
    requires "" !in names && "" !in others && Remove(text, names) == text
    ensures Remove(Remove(text, others), names) == Remove(text, others)
  {
    RemoveUnion(text, others, names);
    RemoveUnion(text, names, others);
    assert others + names == names + others;
  }

  lemma RemoveShorter(text: string, names: set<string>)
    ensures |Remove(text, names)| <= |text|
  {
    JoinKeepShorter(Split(text), names);
    JoinSplit(text);
  }

  lemma {:induction false} JoinKeepShorter(lines: seq<string>, names: set<string>)
    ensures |Join(Keep(lines, names))| <= |Join(lines)|
  {
    if lines != [] {
      JoinKeepShorter(lines[1..], names);
      var kept := Keep(lines[1..], names);
      assert ([lines[0]] + kept)[1..] == kept;
    }
  }

  lemma SplitRestore(text: string, lines: seq<string>)
    requires forall line | line in lines :: OneLine(line)
    ensures Split(Restore(text, lines)) == Keep(lines, Listed(text)) + Split(text)
  {
    var missing := Keep(lines, Listed(text));
    if missing == [] {
      assert missing + Split(text) == Split(text);
    } else {
      SplitAbove(missing, text);
    }
  }

  /** Restoring adds the recorded lines of containers that are not listed and touches no other line. */
  lemma RestoreEffect(text: string, lines: seq<string>, name: string)
    requires forall line | line in lines :: OneLine(line)
    ensures LinesOf(Restore(text, lines), name) ==
            if name in Listed(text) then LinesOf(text, name) else Only(lines, name)
  {
    var missing := Keep(lines, Listed(text));
    SplitRestore(text, lines);
    OnlyConcat(missing, Split(text), name);
    OnlyKeep(lines, Listed(text), name);
    if name !in Listed(text) {
      OnlyNone(Split(text), name);
    }
  }

  lemma RestoreOthers(text: string, lines: seq<string>, hidden: set<string>)
    requires forall line | line in lines :: OneLine(line) && Name(line) in hidden
    ensures Others(Restore(text, lines), hidden) == Others(text, hidden)
  {
    var missing := Keep(lines, Listed(text));
    SplitRestore(text, lines);
    KeepConcat(missing, Split(text), hidden + {""});
    KeepNone(missing, hidden + {""});
  }

  lemma ListedLines(text: string, name: string)
    ensures name in Listed(text) <==> LinesOf(text, name) != []
  {
    if LinesOf(text, name) != [] {
      var line := LinesOf(text, name)[0];
      assert line in LinesOf(text, name);
    }
    if name in Listed(text) {
      var line :| line in Split(text) && Name(line) == name;
      assert line in LinesOf(text, name);
    }
  }

  /** Restoring twice is restoring once, so an interrupted recovery can be retried. */
  lemma RestoreTwice(text: string, lines: seq<string>)
    requires forall line | line in lines :: OneLine(line)
    ensures Restore(Restore(text, lines), lines) == Restore(text, lines)
  {
    var once := Restore(text, lines);
    SplitRestore(text, lines);
    forall line | line in lines
      ensures Name(line) in Listed(once)
    {
      if Name(line) in Listed(text) {
        var l :| l in Split(text) && Name(l) == Name(line);
        assert l in Split(once);
      } else {
        assert line in Keep(lines, Listed(text));
        assert line in Split(once);
      }
    }
    KeepNone(lines, Listed(once));
  }

  lemma RemovedNotListed(text: string, names: set<string>)
    requires "" !in names
    ensures Listed(Remove(text, names)) !! names
  {
    forall name | name in names
      ensures name !in Listed(Remove(text, names))
    {
      RemoveEffect(text, names, name, names);
      ListedLines(Remove(text, names), name);
    }
  }

  function NamesOf(lines: seq<string>): set<string> {
    set line | line in lines :: Name(line)
  }

  /**
   * Removing the recorded containers and putting their lines back gives the recorded lines, each exactly once
   * and in the recorded order, above the rest of the list in its own order.
   */
  lemma RemoveThenRestore(text: string, lines: seq<string>)
    requires forall line | line in lines :: OneLine(line) && Name(line) != ""
    requires forall i, j | 0 <= i < j < |lines| :: Name(lines[i]) != Name(lines[j])
    ensures var names := NamesOf(lines);
            var restored := Restore(Remove(text, names), lines);
            Split(restored) == lines + Split(Remove(text, names)) &&
            (forall k | 0 <= k < |lines| :: LinesOf(restored, Name(lines[k])) == [lines[k]]) &&
            Others(restored, names) == Others(text, names)
  {
    var names := NamesOf(lines);
    var removed := Remove(text, names);
    RemovedNotListed(text, names);
    assert forall line | line in lines :: Name(line) in names;
    SplitRestore(removed, lines);
    KeepAll(lines, Listed(removed));
    forall k | 0 <= k < |lines|
      ensures LinesOf(Restore(removed, lines), Name(lines[k])) == [lines[k]]
    {
      assert lines[k] in lines;
      RestoreEffect(removed, lines, Name(lines[k]));
      OnlyDistinct(lines, k);
    }
    RestoreOthers(removed, lines, names);
    RemoveEffect(text, names, "-", names);
  }

  // Trimming a recorded line

  lemma {:induction false} NameTrimEnd(line: string)
    ensures Word(TrimEnd(line)) == Word(line)
    ensures line != "" && !IsSpace(line[0]) ==> TrimEnd(line) != "" && TrimEnd(line)[0] == line[0]
    decreases |line|
  {
    if line != "" && IsSpace(line[|line| - 1]) {
      NameTrimEnd(line[..|line| - 1]);
      WordPrefix(line[..|line| - 1], line[|line| - 1]);
      assert line[..|line| - 1] + [line[|line| - 1]] == line;
    }
  }

  lemma {:induction false} WordPrefix(line: string, space: char)
    requires IsSpace(space)
    ensures Word(line + [space]) == Word(line)
  {
    if line != "" && !IsSpace(line[0]) {
      assert (line + [space])[1..] == line[1..] + [space];
      WordPrefix(line[1..], space);
    }
  }

  /** A recorded line is stored trimmed; it still names the same container and is still one line. */
  lemma {:induction false} TrimLine(line: string)
    ensures Name(Trim(line)) == Name(line)
    ensures OneLine(line) ==> OneLine(Trim(line))
    decreases |line|
  {
    if line != "" && IsSpace(line[0]) {
      TrimLine(line[1..]);
    } else {
      NameTrimEnd(line);
      TrimEndShorter(line);
    }
  }

  lemma {:induction false} TrimEndShorter(line: string)
    ensures OneLine(line) ==> OneLine(TrimEnd(line))
    decreases |line|
  {
    if line != "" && IsSpace(line[|line| - 1]) {
      TrimEndShorter(line[..|line| - 1]);
    }
  }

  lemma {:induction false} TrimEndTwice(line: string)
    ensures TrimEnd(TrimEnd(line)) == TrimEnd(line)
    decreases |line|
  {
    if line != "" && IsSpace(line[|line| - 1]) {
      TrimEndTwice(line[..|line| - 1]);
    }
  }

  lemma {:induction false} TrimTwice(line: string)
    ensures Trim(Trim(line)) == Trim(line)
    decreases |line|
  {
    if line != "" && IsSpace(line[0]) {
      TrimTwice(line[1..]);
    } else {
      NameTrimEnd(line);
      TrimEndTwice(line);
    }
  }
}
