/**
 The label-file parser `load_labels` (tensor-flow/package/detector.py and
 its copy in tensor-flow/detect_picamera.py): every line of the file gives
 one entry of a dictionary from class index to label, either from a
 leading decimal index (`0  person`, `1: bicycle`) or, failing that, from
 the line's position in the file.

 The file is given as the list of lines `f.readlines()` returns; opening
 and decoding it are not modelled.
 */
module Labels {
  import opened PyText

  /** The key and the label one line contributes. */
  datatype Entry = Entry(key: int, text: string)

  /**
   The loop body of `load_labels` for line number `row`: strip the line,
   split it once on the first run of `:` and whitespace, and use the first
   piece as the key when it is all digits; otherwise key the first piece
   by `row`.
   */
  function ParseLine(row: nat, line: string): (e: Entry)
    ensures e.key >= 0
    ensures Trimmed(e.text)
  {
    match SplitOnce(Strip(line))
    case Whole(w) => Entry(row, Strip(w))
    case Pair(head, rest) =>
      // `isdigit` is asked of `pair[0].strip()` and `int(pair[0])` ignores
      // surrounding whitespace, so both read the stripped head.
      if IsDigits(Strip(head)) then Entry(DigitsValue(Strip(head)), Strip(rest))
      else Entry(row, Strip(head))
  }

  /** The entries of the lines, in file order. */
  function Entries(lines: seq<string>): (es: seq<Entry>)
    ensures |es| == |lines|
    ensures forall row :: 0 <= row < |lines| ==> es[row] == ParseLine(row, lines[row])
  {
    seq(|lines|, row requires 0 <= row < |lines| => ParseLine(row, lines[row]))
  }

  /** Every entry's key is in the dictionary. */
  ghost predicate Covers(es: seq<Entry>, labels: map<int, string>) {
    forall row :: 0 <= row < |es| ==> es[row].key in labels
  }

  /** Every key of the dictionary comes from some entry. */
  ghost predicate KeysFromEntries(es: seq<Entry>, labels: map<int, string>) {
    forall k :: k in labels ==> exists row :: 0 <= row < |es| && es[row].key == k
  }

  /** No entry after `row` has the same key as `row`. */
  ghost predicate LastWithKey(es: seq<Entry>, row: nat)
    requires row < |es|
  {
    forall later :: row < later < |es| ==> es[later].key != es[row].key
  }

  /** The text stored under a key is that of the last entry with that key. */
  ghost predicate LastEntryWins(es: seq<Entry>, labels: map<int, string>)
    requires Covers(es, labels)
  {
    forall row :: 0 <= row < |es| && LastWithKey(es, row) ==> labels[es[row].key] == es[row].text
  }

  /** The dictionary built by assigning `labels[key] = text` for each entry
      in turn. */
  function Assign(es: seq<Entry>): (labels: map<int, string>)
    ensures Covers(es, labels)
    ensures KeysFromEntries(es, labels)
    ensures LastEntryWins(es, labels)
    ensures |labels.Keys| <= |es|
  {
    if |es| == 0 then map[]
    else
      var n := |es| - 1;
      var prev := Assign(es[..n]);
      var labels := prev[es[n].key := es[n].text];
      StepCovers(es, prev);
      StepKeysFromEntries(es, prev);
      StepLastEntryWins(es, prev);
      assert labels.Keys == prev.Keys + {es[n].key};
      labels
  }

  lemma StepCovers(es: seq<Entry>, prev: map<int, string>)
    requires |es| > 0
    requires Covers(es[..|es| - 1], prev)
    ensures Covers(es, prev[es[|es| - 1].key := es[|es| - 1].text])
  {
    var before := es[..|es| - 1];
    forall row | 0 <= row < |before|
      ensures es[row].key in prev
    {
      assert before[row] == es[row];
    }
  }

  lemma StepKeysFromEntries(es: seq<Entry>, prev: map<int, string>)
    requires |es| > 0
    requires KeysFromEntries(es[..|es| - 1], prev)
    ensures KeysFromEntries(es, prev[es[|es| - 1].key := es[|es| - 1].text])
  {
    var n := |es| - 1;
    var before := es[..n];
    var labels := prev[es[n].key := es[n].text];
    forall k | k in labels.Keys
      ensures exists row :: 0 <= row < |es| && es[row].key == k
    {
      if k != es[n].key {
        var row :| 0 <= row < |before| && before[row].key == k;
        assert before[row] == es[row];
      }
    }
  }

  lemma StepLastEntryWins(es: seq<Entry>, prev: map<int, string>)
    requires |es| > 0
    requires Covers(es[..|es| - 1], prev)
    requires LastEntryWins(es[..|es| - 1], prev)
    ensures Covers(es, prev[es[|es| - 1].key := es[|es| - 1].text])
    ensures LastEntryWins(es, prev[es[|es| - 1].key := es[|es| - 1].text])
  {
    StepCovers(es, prev);
    var n := |es| - 1;
    var before := es[..n];
    var labels := prev[es[n].key := es[n].text];
    forall row | 0 <= row < n && LastWithKey(es, row)
      ensures labels[es[row].key] == es[row].text
    {
      assert before[row] == es[row];
      assert LastWithKey(before, row) by {
        forall later | row < later < |before|
          ensures before[later].key != before[row].key
        {
          assert before[later] == es[later];
        }
      }
    }
  }

  /**
   `load_labels`: the lines are processed in order and each writes its
   entry into the dictionary, so a later line overwrites an earlier line
   with the same key; the dictionary has one key per distinct entry key.
   */
  function LoadLabels(lines: seq<string>): (labels: map<int, string>)
    ensures Covers(Entries(lines), labels)
    ensures KeysFromEntries(Entries(lines), labels)
    ensures LastEntryWins(Entries(lines), labels)
    ensures |labels.Keys| <= |lines|
  {
    Assign(Entries(lines))
  }

  // ---------------------------------------------------------------------
  // What one line yields

  /** A digit string is trimmed and free of separators. */
  lemma DigitsAreWord(s: string)
    requires IsDigits(s)
    ensures NoSep(s) && Trimmed(s)
  {
  }

  /** A trimmed text is left alone by `strip`. */
  lemma StripTrimmed(text: string)
    requires Trimmed(text)
    ensures Strip(text) == text
  {
    StripOf("", text, "");
    assert "" + text + "" == text;
  }

  /** Reading a line through its two pieces: once `strip` and the split are
      known, the entry follows. */
  lemma ParseThroughPair(row: nat, line: string, head: string, rest: string)
    requires SplitOnce(Strip(line)) == Pair(head, rest)
    ensures IsDigits(Strip(head)) ==> ParseLine(row, line) == Entry(DigitsValue(Strip(head)), Strip(rest))
    ensures !IsDigits(Strip(head)) ==> ParseLine(row, line) == Entry(row, Strip(head))
  {
  }

  /** A line led by a digit string is keyed by the value of the digits. */
  lemma DigitsLine(row: nat, lead: string, digits: string, sep: string, text: string, trail: string)
    requires AllSpace(lead) && AllSpace(trail)
    requires IsDigits(digits)
    requires |sep| > 0 && AllSep(sep)
    requires |text| > 0 && !IsSep(text[0]) && !IsSpace(text[|text| - 1])
    ensures ParseLine(row, lead + digits + sep + text + trail) == Entry(DigitsValue(digits), text)
  {
    var body := digits + sep + text;
    var line := lead + digits + sep + text + trail;
    DigitsAreWord(digits);
    assert Strip(line) == body by {
      assert line == lead + body + trail;
      assert body[0] == digits[0] && body[|body| - 1] == text[|text| - 1];
      StripOf(lead, body, trail);
    }
    assert SplitOnce(body) == Pair(digits, text) by {
      SplitOf(digits, sep, text);
    }
    StripTrimmed(digits);
    StripTrimmed(text);
    ParseThroughPair(row, line, digits, text);
  }

  /**
   A numbered line: optional whitespace, the decimal form of `n`, a run of
   separators, the label, optional whitespace gives the entry `n -> label`,
   whatever its row.
   */
  lemma NumberedLine(row: nat, lead: string, n: nat, sep: string, text: string, trail: string)
    requires AllSpace(lead) && AllSpace(trail)
    requires |sep| > 0 && AllSep(sep)
    requires |text| > 0 && !IsSep(text[0]) && !IsSpace(text[|text| - 1])
    ensures ParseLine(row, lead + NatToString(n) + sep + text + trail) == Entry(n, text)
  {
    DigitsLine(row, lead, NatToString(n), sep, text, trail);
    DigitsRoundTrip(n);
  }

  /**
   A line whose first word is not a number keeps only that word, keyed by
   the row: `traffic light` on row 9 gives `9 -> traffic`.
   */
  lemma WordThenMore(row: nat, lead: string, word: string, sep: string, more: string, trail: string)
    requires AllSpace(lead) && AllSpace(trail)
    requires |word| > 0 && NoSep(word) && !IsDigits(word)
    requires |sep| > 0 && AllSep(sep)
    requires |more| > 0 && !IsSep(more[0]) && !IsSpace(more[|more| - 1])
    ensures ParseLine(row, lead + word + sep + more + trail) == Entry(row, word)
  {
    var body := word + sep + more;
    var line := lead + word + sep + more + trail;
    assert Trimmed(word) && Trimmed(more) by {
      assert !IsSep(word[0]) && !IsSep(word[|word| - 1]);
    }
    assert Strip(line) == body by {
      assert line == lead + body + trail;
      assert body[0] == word[0] && body[|body| - 1] == more[|more| - 1];
      StripOf(lead, body, trail);
    }
    assert SplitOnce(body) == Pair(word, more) by {
      SplitOf(word, sep, more);
    }
    StripTrimmed(word);
    StripTrimmed(more);
    ParseThroughPair(row, line, word, more);
  }

  /** A first piece followed by separators ending in a colon, and nothing
      else, strips to itself and splits into that piece and an empty rest. */
  lemma ColonEnded(lead: string, head: string, sep: string, trail: string)
    requires AllSpace(lead) && AllSpace(trail)
    requires |head| > 0 && NoSep(head)
    requires AllSep(sep)
    ensures Strip(lead + head + sep + ":" + trail) == head + (sep + ":")
    ensures SplitOnce(head + (sep + ":")) == Pair(head, "")
  {
    ColonEndedStrip(lead, head, sep, trail);
    ColonEndedSplit(head, sep);
  }

  lemma ColonEndedStrip(lead: string, head: string, sep: string, trail: string)
    requires AllSpace(lead) && AllSpace(trail)
    requires |head| > 0 && !IsSep(head[0])
    ensures Strip(lead + head + sep + ":" + trail) == head + (sep + ":")
  {
    var body := head + (sep + ":");
    assert body[0] == head[0] && body[|body| - 1] == ':';
    assert lead + head + sep + ":" + trail == lead + body + trail;
    StripOf(lead, body, trail);
  }

  lemma ColonEndedSplit(head: string, sep: string)
    requires NoSep(head)
    requires AllSep(sep)
    ensures SplitOnce(head + (sep + ":")) == Pair(head, "")
  {
    var run := sep + ":";
    assert AllSep(run) by {
      forall i | 0 <= i < |run|
        ensures IsSep(run[i])
      {
        if i < |sep| {
          assert run[i] == sep[i];
        } else {
          assert run[i] == ':';
        }
      }
    }
    assert head + run + "" == head + run;
    SplitOf(head, run, "");
  }

  /**
   A number followed by separators ending in a colon, and nothing else,
   splits into the number and an empty rest: `12:` and `12 :` give
   `12 -> ""`, whereas `12` alone is keyed by its row.
   */
  lemma DigitsThenColon(row: nat, lead: string, digits: string, sep: string, trail: string)
    requires AllSpace(lead) && AllSpace(trail)
    requires IsDigits(digits)
    requires AllSep(sep)
    ensures ParseLine(row, lead + digits + sep + ":" + trail) == Entry(DigitsValue(digits), "")
    ensures ParseLine(row, lead + digits + trail) == Entry(row, digits)
  {
    assert NoSep(digits) && Trimmed(digits) by {
      DigitsAreWord(digits);
    }
    ColonEnded(lead, digits, sep, trail);
    StripTrimmed(digits);
    StripTrimmed("");
    ParseThroughPair(row, lead + digits + sep + ":" + trail, digits, "");
    SingleWord(row, lead, digits, trail);
  }

  /** A word that is not a number, followed by separators ending in a colon,
      keeps the word under its row: `person:` on row 0 gives `0 -> person`. */
  lemma WordThenColon(row: nat, lead: string, word: string, sep: string, trail: string)
    requires AllSpace(lead) && AllSpace(trail)
    requires |word| > 0 && NoSep(word) && !IsDigits(word)
    requires AllSep(sep)
    ensures ParseLine(row, lead + word + sep + ":" + trail) == Entry(row, word)
  {
    assert Trimmed(word) by {
      assert !IsSep(word[0]) && !IsSep(word[|word| - 1]);
    }
    ColonEnded(lead, word, sep, trail);
    StripTrimmed(word);
    StripTrimmed("");
    ParseThroughPair(row, lead + word + sep + ":" + trail, word, "");
  }

  /** A line holding one word (digits or not) is keyed by the row. */
  lemma SingleWord(row: nat, lead: string, word: string, trail: string)
    requires AllSpace(lead) && AllSpace(trail)
    requires NoSep(word)
    ensures ParseLine(row, lead + word + trail) == Entry(row, word)
  {
    assert Strip(lead + word + trail) == word by {
      StripOf(lead, word, trail);
    }
    StripNoSep(word);
  }

  /** A blank line still takes its row, with the empty label. */
  lemma BlankLine(row: nat, line: string)
    requires AllSpace(line)
    ensures ParseLine(row, line) == Entry(row, "")
  {
    assert line + "" + "" == line;
    SingleWord(row, line, "", "");
  }

  /** A line whose first non-blank character is `:` has an empty first
      piece, so the row key and an empty label. */
  lemma LeadingColon(row: nat, lead: string, rest: string)
    requires AllSpace(lead)
    ensures ParseLine(row, lead + ":" + rest) == Entry(row, "")
  {
    var line := lead + ":" + rest;
    var t := ":" + rest;
    assert t[0] == ':' && !IsSpace(t[0]);
    var body := StripRight(t);
    assert Strip(line) == body by {
      assert line == lead + t;
      StripLeftOf(lead, t);
    }
    assert |body| > 0 && body[0] == ':' by {
      StripRightKeepsHead(t);
    }
    SplitLeadingSep(body);
    var r := SplitOnce(body);
    StripTrimmed("");
    ParseThroughPair(row, line, "", r.rest);
  }

  /** The key `int` reads from a numbered line is the number written there,
      leading zeros included: `007 bond` gives `7 -> bond`. */
  lemma ZeroPaddedLine(row: nat, lead: string, n: nat, sep: string, text: string, trail: string)
    requires AllSpace(lead) && AllSpace(trail)
    requires |sep| > 0 && AllSep(sep)
    requires |text| > 0 && !IsSep(text[0]) && !IsSpace(text[|text| - 1])
    ensures ParseLine(row, lead + ("0" + NatToString(n)) + sep + text + trail) == Entry(n, text)
  {
    var digits := NatToString(n);
    assert IsDigits("0" + digits) by {
      assert forall i :: 0 < i < |"0" + digits| ==> ("0" + digits)[i] == digits[i - 1];
    }
    DigitsLine(row, lead, "0" + digits, sep, text, trail);
    LeadingZero(digits);
    DigitsRoundTrip(n);
  }

  // ---------------------------------------------------------------------
  // Whole files

  /** Entries with pairwise different keys: each key maps to its entry's
      text and nothing else is in the dictionary. */
  lemma AssignDistinct(es: seq<Entry>)
    requires forall i, j :: 0 <= i < j < |es| ==> es[i].key != es[j].key
    ensures forall i :: 0 <= i < |es| ==> es[i].key in Assign(es) && Assign(es)[es[i].key] == es[i].text
    ensures forall k :: k in Assign(es) ==> exists i :: 0 <= i < |es| && es[i].key == k
  {
    var labels := Assign(es);
    forall i | 0 <= i < |es|
      ensures es[i].key in labels && labels[es[i].key] == es[i].text
    {
      assert LastWithKey(es, i);
    }
  }

  /** One line `n name` as a file writes it, newline included. */
  lemma NumberedRow(row: nat, n: nat, name: string)
    requires |name| > 0 && !IsSep(name[0]) && !IsSpace(name[|name| - 1])
    ensures ParseLine(row, NatToString(n) + " " + name + "\n") == Entry(n, name)
  {
    assert IsSpace('\n') && IsSep(' ');
    EmptyPrefix(NatToString(n));
    NumberedLine(row, "", n, " ", name, "\n");
  }

  /** One line holding a single word, newline included. */
  lemma WordRow(row: nat, word: string)
    requires NoSep(word)
    ensures ParseLine(row, word + "\n") == Entry(row, word)
  {
    assert IsSpace('\n');
    EmptyPrefix(word);
    SingleWord(row, "", word, "\n");
  }

  /** A file of numbered lines `key name` (any order, no key twice) yields
      exactly the dictionary those keys and names describe. */
  lemma NumberedFile(lines: seq<string>, keys: seq<nat>, names: seq<string>)
    requires |keys| == |names| == |lines|
    requires forall i :: 0 <= i < |lines| ==>
               |names[i]| > 0 && !IsSep(names[i][0]) && !IsSpace(names[i][|names[i]| - 1])
    requires forall i :: 0 <= i < |lines| ==> lines[i] == NatToString(keys[i]) + " " + names[i] + "\n"
    requires forall i, j :: 0 <= i < j < |lines| ==> keys[i] != keys[j]
    ensures forall i :: 0 <= i < |lines| ==> keys[i] in LoadLabels(lines)
    ensures forall i :: 0 <= i < |lines| ==> LoadLabels(lines)[keys[i]] == names[i]
    ensures forall k :: k in LoadLabels(lines) ==> exists i :: 0 <= i < |lines| && keys[i] == k
  {
    var es := Entries(lines);
    forall i | 0 <= i < |lines|
      ensures es[i] == Entry(keys[i], names[i])
    {
      NumberedRow(i, keys[i], names[i]);
    }
    AssignDistinct(es);
  }

  /** Entries keyed by their own position fill the keys `0 .. |es| - 1`. */
  lemma AssignByRow(es: seq<Entry>)
    requires forall i :: 0 <= i < |es| ==> es[i].key == i
    ensures forall k :: k in Assign(es) <==> 0 <= k < |es|
    ensures forall i :: 0 <= i < |es| ==> Assign(es)[i] == es[i].text
  {
    assert forall i, j :: 0 <= i < j < |es| ==> es[i].key != es[j].key;
    AssignDistinct(es);
    var labels := Assign(es);
    forall k | k in labels
      ensures 0 <= k < |es|
    {
      var i :| 0 <= i < |es| && es[i].key == k;
    }
    forall k | 0 <= k < |es|
      ensures k in labels && labels[k] == es[k].text
    {
      assert es[k].key == k;
    }
  }

  /** A file of one-word lines yields `row -> word` for every row: the
      unnumbered label format. */
  lemma PlainFile(lines: seq<string>, words: seq<string>)
    requires |words| == |lines|
    requires forall i :: 0 <= i < |lines| ==> NoSep(words[i]) && lines[i] == words[i] + "\n"
    ensures forall k :: k in LoadLabels(lines) <==> 0 <= k < |lines|
    ensures forall row :: 0 <= row < |lines| ==> LoadLabels(lines)[row] == words[row]
  {
    var es := Entries(lines);
    forall i | 0 <= i < |lines|
      ensures es[i] == Entry(i, words[i])
    {
      WordRow(i, words[i]);
    }
    AssignByRow(es);
  }
}
