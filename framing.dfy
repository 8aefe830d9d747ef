/**
 * Record framing of the JSON stream read by S9sRpcClientPrivate.
 *
 * When the controller streams JSON, each record ends with an empty line
 * ("\n\n") or with the record separator byte 0x1E, and a separator may also
 * open the buffer. These functions state, on the used bytes of the buffer,
 * what hasCompleteJSon, getCompleteJSon and skipRecord compute; the class in
 * module RpcClient is proved against them.
 */
module Framing {
  import opened Text

  /** The record separator byte '\036'. */
  const RS: char := 30 as char

  /** A blank line: two newlines starting at index i. */
  predicate BlankLineAt(d: string, i: int) {
    0 <= i && i + 1 < |d| && d[i] == '\n' && d[i + 1] == '\n'
  }

  predicate HasBlankLine(d: string) {
    exists i | 0 <= i < |d| :: BlankLineAt(d, i)
  }

  /** memmem(d, "\n\n") searching from `from`: the first blank line at or after it. */
  function FindBlankLineFrom(d: string, from: nat): (r: Option<nat>)
    ensures r.Some? ==> from <= r.value && BlankLineAt(d, r.value)
    ensures r.Some? ==> forall j :: from <= j < r.value ==> !BlankLineAt(d, j)
    ensures r.None? ==> forall j :: from <= j ==> !BlankLineAt(d, j)
    decreases |d| - from
  {
    if from + 1 >= |d| then None
    else if d[from] == '\n' && d[from + 1] == '\n' then Some(from)
    else FindBlankLineFrom(d, from + 1)
  }

  function FindBlankLine(d: string): (r: Option<nat>)
    ensures r.None? <==> !HasBlankLine(d)
    ensures r.Some? ==> BlankLineAt(d, r.value) && forall j :: 0 <= j < r.value ==> !BlankLineAt(d, j)
  {
    FindBlankLineFrom(d, 0)
  }

  /** hasCompleteJSon as documented: a blank line or a separator somewhere in the data. */
  predicate HasCompleteRecord(d: string) {
    HasBlankLine(d) || RS in d
  }

  /** The number of bytes getCompleteJSon skips at the front: one separator at index 0. */
  function Lead(d: string): (n: nat)
    ensures n <= |d|
    ensures n == 1 <==> |d| > 0 && d[0] == RS
  {
    if |d| > 0 && d[0] == RS then 1 else 0
  }

  /** The record in `t` ends before index j: a separator, or the second newline of a blank line. */
  predicate EndsRecordAt(t: string, j: int)
    requires 0 <= j < |t|
  {
    t[j] == RS || (j > 0 && t[j] == '\n' && t[j - 1] == '\n')
  }

  /** The first index at or after `from` that ends the record, or |t| when none does. */
  function RecordEnd(t: string, from: nat): (e: nat)
    requires from <= |t|
    ensures from <= e <= |t|
    ensures forall j :: from <= j < e ==> !EndsRecordAt(t, j)
    ensures e < |t| ==> EndsRecordAt(t, e)
    decreases |t| - from
  {
    if from == |t| then from
    else if EndsRecordAt(t, from) then from
    else RecordEnd(t, from + 1)
  }

  /**
   * The first record of the data: after a leading separator, the longest
   * prefix holding no separator and no blank line. A blank line leaves its
   * first newline in the record.
   */
  function CompleteRecord(d: string): (r: string)
    ensures |r| + Lead(d) <= |d|
    ensures r == d[Lead(d)..Lead(d) + |r|]
    ensures RS !in r
    ensures !HasBlankLine(r)
    ensures Lead(d) + |r| == |d| || d[Lead(d) + |r|] == RS ||
            (|r| > 0 && r[|r| - 1] == '\n' && d[Lead(d) + |r|] == '\n')
  {
    var t := d[Lead(d)..];
    var e := RecordEnd(t, 0);
    CleanBeforeEnd(t, e);
    t[..e]
  }

  /** Before the first index that ends the record there is no separator and no blank line. */
  lemma CleanBeforeEnd(t: string, e: nat)
    requires e <= |t|
    requires forall j :: 0 <= j < e ==> !EndsRecordAt(t, j)
    ensures RS !in t[..e]
    ensures !HasBlankLine(t[..e])
  {
    var r := t[..e];
    assert forall i :: 0 <= i < |r| ==> r[i] == t[i] && !EndsRecordAt(t, i);
    forall i | 0 <= i < |r|
      ensures !BlankLineAt(r, i)
    {
      if i + 1 < |r| {
        assert r[i] == t[i] && r[i + 1] == t[i + 1];
        assert !EndsRecordAt(t, i + 1);
      }
    }
  }

  /** In the text after the leading separator, the record stops short exactly when a terminator follows. */
  lemma RecordEndIffTerminator(t: string)
    ensures (HasBlankLine(t) || RS in t) <==> RecordEnd(t, 0) < |t|
  {
    var e := RecordEnd(t, 0);
    if RS in t {
      var k :| 0 <= k < |t| && t[k] == RS;
      assert EndsRecordAt(t, k);
    } else if HasBlankLine(t) {
      var i :| 0 <= i < |t| && BlankLineAt(t, i);
      assert EndsRecordAt(t, i + 1);
    }
    if e < |t| {
      assert t[e] == RS || BlankLineAt(t, e - 1);
    }
  }

  /**
   * The first record stops before the end of the data exactly when a blank
   * line or a separator follows the leading one. The data holds a terminator,
   * a leading separator included, exactly when it is longer than the first
   * record: a lone leading separator, as in [RS] + "abc", makes the data
   * longer than its record although the record runs to the end.
   */
  lemma TerminatorIffShortRecord(d: string)
    ensures HasCompleteRecord(d) <==> |CompleteRecord(d)| < |d|
    ensures (HasBlankLine(d) || RS in d[Lead(d)..]) <==> Lead(d) + |CompleteRecord(d)| < |d|
  {
    var t := d[Lead(d)..];
    RecordEndIffTerminator(t);
    assert |CompleteRecord(d)| == RecordEnd(t, 0);
    if Lead(d) == 0 {
      assert t == d;
    } else {
      assert d[0] == RS;
      forall i | 0 <= i < |d| && BlankLineAt(d, i)
        ensures BlankLineAt(t, i - 1)
      {
        assert i > 0;
      }
      forall i | 0 <= i < |t| && BlankLineAt(t, i)
        ensures BlankLineAt(d, i + 1)
      {
      }
      assert HasBlankLine(d) <==> HasBlankLine(t);
    }
  }

  /** A lone leading separator: the data counts as holding a terminator, yet the record runs to its end. */
  lemma LeadingSeparatorAlone(body: string)
    requires RS !in body && !HasBlankLine(body)
    ensures var d := [RS] + body;
      HasCompleteRecord(d) && CompleteRecord(d) == body && Lead(d) + |CompleteRecord(d)| == |d|
  {
    var d := [RS] + body;
    assert d[0] == RS && d[1..] == body;
    TerminatorIffShortRecord(d);
    assert !(HasBlankLine(d) || RS in d[1..]) by {
      if HasBlankLine(d) {
        var i :| 0 <= i < |d| && BlankLineAt(d, i);
        assert BlankLineAt(body, i - 1);
      }
    }
  }

  /**
   * skipRecord as intended: drop everything up to and including the first
   * blank line, and one separator right after it when the data holds one.
   */
  function SkipFirstRecord(d: string): (r: Option<string>)
    ensures r.None? <==> !HasBlankLine(d)
    ensures r.Some? ==> |r.value| + 2 <= |d| && r.value == d[|d| - |r.value|..]
  {
    match FindBlankLine(d)
    case None => None
    case Some(i) =>
      var next := i + 2;
      var n := if next < |d| && d[next] == RS then next + 1 else next;
      Some(d[n..])
  }

  /**
   * The stream format: an optional separator, a record holding neither
   * separators nor blank lines and not ending in a newline, a blank line,
   * an optional separator, then the rest of the stream. getCompleteJSon
   * yields the record with the first newline of the blank line.
   */
  lemma FramedRecordRead(lead: string, rec: string, tail: string)
    requires lead == [] || lead == [RS]
    requires RS !in rec && !HasBlankLine(rec)
    requires rec == [] || rec[|rec| - 1] != '\n'
    ensures CompleteRecord(lead + rec + "\n\n" + tail) == rec + "\n"
  {
    var d := lead + rec + "\n\n" + tail;
    assert Lead(d) == |lead|;
    var t := d[|lead|..];
    assert t == rec + "\n\n" + tail;
    forall j | 0 <= j < |rec|
      ensures !EndsRecordAt(t, j)
    {
      assert t[j] == rec[j];
      if j > 0 {
        assert t[j - 1] == rec[j - 1];
        assert !BlankLineAt(rec, j - 1);
      }
    }
    assert |rec| > 0 ==> t[|rec| - 1] == rec[|rec| - 1];
    assert !EndsRecordAt(t, |rec|);
    assert EndsRecordAt(t, |rec| + 1);
    var e := RecordEnd(t, 0);
    assert e == |rec| + 1;
    assert t[..e] == rec + "\n";
  }

  /** In the same stream format skipRecord leaves exactly what follows the record's framing. */
  lemma FramedRecordSkip(lead: string, rec: string, sep: string, rest: string)
    requires lead == [] || lead == [RS]
    requires sep == [] || sep == [RS]
    requires RS !in rec && !HasBlankLine(rec)
    requires rec == [] || rec[|rec| - 1] != '\n'
    requires sep == [RS] || rest == [] || rest[0] != RS
    ensures SkipFirstRecord(lead + rec + "\n\n" + sep + rest) == Some(rest)
  {
    var d := lead + rec + "\n\n" + sep + rest;
    var s := |lead|;
    var m := s + |rec|;
    forall j | 0 <= j < m
      ensures !BlankLineAt(d, j)
    {
      if j < s {
        assert d[j] == RS;
      } else if j + 1 < m {
        assert d[j] == rec[j - s] && d[j + 1] == rec[j + 1 - s];
        assert !BlankLineAt(rec, j - s);
      } else {
        assert d[j] == rec[|rec| - 1];
      }
    }
    assert BlankLineAt(d, m);
    assert FindBlankLine(d) == Some(m);
    if sep == [RS] {
      assert d[m + 2] == RS;
      assert d[m + 3..] == rest;
    } else {
      assert d[m + 2..] == rest;
    }
  }

  // ---------------------------------------------------------------------
  // The code as written (see the Findings in README.md). `storage` is the
  // whole allocation, m_bufferSize bytes; the data is its first dataSize.
  // ---------------------------------------------------------------------

  /**
   * hasCompleteJSon as written: the separator test passes m_dataSize as the
   * byte to look for and 30 (the separator's value) as the length, so it
   * looks for the byte dataSize % 256 among the first 30 bytes of the
   * allocation. None: no byte found before the end of a shorter allocation,
   * so memchr reads past it.
   */
  function HasCompleteJSonAsWritten(storage: string, dataSize: nat): (r: Option<bool>)
    requires dataSize <= |storage|
    ensures |storage| == 0 ==> r == Some(false)
    ensures |storage| > 0 && HasBlankLine(storage[..dataSize]) ==> r == Some(true)
  {
    if |storage| == 0 then Some(false)
    else if FindBlankLine(storage[..dataSize]).Some? then Some(true)
    else
      var probe := (dataSize % 256) as char;
      var n := 30;
      if probe in storage[..if |storage| < n then |storage| else n] then Some(true)
      else if |storage| < n then None
      else Some(false)
  }

  /** A record ended by a separator alone is missed. */
  lemma HasCompleteJSonMissesSeparator()
    ensures var storage := "{}" + [RS] + seq(27, _ => ' ');
      HasCompleteJSonAsWritten(storage, 3) == Some(false) && HasCompleteRecord(storage[..3])
  {
    var storage := "{}" + [RS] + seq(27, _ => ' ');
    assert storage[..3] == "{}" + [RS];
    assert storage[2] == RS;
    assert !BlankLineAt(storage[..3], 0) && !BlankLineAt(storage[..3], 1) && !BlankLineAt(storage[..3], 2);
    assert (3 % 256) as char !in storage[..30];
  }

  /** Data with no terminator is reported complete when the byte dataSize % 256 lies in the first 30 bytes. */
  lemma HasCompleteJSonFalsePositive()
    ensures var storage := [' ', 1 as char] + seq(28, _ => ' ');
      HasCompleteJSonAsWritten(storage, 1) == Some(true) && !HasCompleteRecord(storage[..1])
  {
    var storage := [' ', 1 as char] + seq(28, _ => ' ');
    assert storage[..1] == [' '];
    assert !BlankLineAt(storage[..1], 0);
    assert storage[..30][1] == 1 as char;
  }

  /**
   * Once the data is at least 30 bytes long, the test fires whenever the
   * byte dataSize % 256 occurs in the first 30 bytes: 32 bytes of data and a
   * space, or 34 bytes and a double quote, both common in JSON.
   */
  lemma HasCompleteJSonProbeFires(storage: string, dataSize: nat)
    requires 30 <= dataSize <= |storage|
    requires (dataSize % 256) as char in storage[..30]
    ensures HasCompleteJSonAsWritten(storage, dataSize) == Some(true)
  {
  }

  /** 32 bytes of an unfinished JSON object holding a space are reported complete. */
  lemma HasCompleteJSonSpaceFalsePositive()
    ensures var d := "{\"name\": " + seq(23, _ => 'x');
      |d| == 32 && HasCompleteJSonAsWritten(d, 32) == Some(true) && !HasCompleteRecord(d)
  {
    var d := "{\"name\": " + seq(23, _ => 'x');
    assert d[8] == ' ' && d[..30][8] == ' ';
    HasCompleteJSonProbeFires(d, 32);
    assert forall i :: 0 <= i < |d| ==> d[i] != '\n' && d[i] != RS;
  }

  datatype SkipOutcome =
    | NotSkipped
    | Skipped(storage: string, dataSize: nat)
    /** memchr or memmove leaves the allocation: the behaviour is undefined. */
    | Undefined

  /**
   * skipRecord as written: the byte after the blank line is read and, if it
   * is a separator, skipped, even when the blank line ends the data; the
   * subtraction for `remaining` then wraps round as size_t.
   */
  function SkipRecordAsWritten(storage: string, dataSize: nat): (r: SkipOutcome)
    requires dataSize <= |storage|
    ensures r.NotSkipped? <==> !HasBlankLine(storage[..dataSize])
    ensures r.Skipped? ==> r.dataSize + 2 <= dataSize && |r.storage| == |storage|
  {
    match FindBlankLine(storage[..dataSize])
    case None => NotSkipped
    case Some(i) =>
      var next := i + 2;
      if next >= |storage| then Undefined
      else
        var n := if storage[next] == RS then next + 1 else next;
        if n > dataSize then Undefined
        else if n == dataSize then Skipped(storage, 0)
        else Skipped(storage[n..dataSize] + storage[dataSize - n..], dataSize - n)
  }

  /** Wherever the code as written skips or declines, it agrees with SkipFirstRecord. */
  lemma SkipRecordAsWrittenAgrees(storage: string, dataSize: nat)
    requires dataSize <= |storage|
    ensures SkipRecordAsWritten(storage, dataSize).NotSkipped? ==> SkipFirstRecord(storage[..dataSize]).None?
    ensures SkipRecordAsWritten(storage, dataSize).Skipped? ==>
      SkipFirstRecord(storage[..dataSize]) ==
      Some(SkipRecordAsWritten(storage, dataSize).storage[..SkipRecordAsWritten(storage, dataSize).dataSize])
  {
    var d := storage[..dataSize];
    var r := SkipRecordAsWritten(storage, dataSize);
    if r.Skipped? {
      var i := FindBlankLine(d).value;
      var next := i + 2;
      assert next < dataSize ==> storage[next] == d[next];
      var n := if next < dataSize && d[next] == RS then next + 1 else next;
      assert SkipFirstRecord(d) == Some(d[n..]);
      if n < dataSize {
        assert r.storage == storage[n..dataSize] + storage[dataSize - n..];
        assert r.storage[..dataSize - n] == d[n..];
      }
    }
  }

  /**
   * The code as written is undefined exactly when the blank line ends the
   * data and the byte after the data is missing or is a stale separator.
   */
  lemma SkipRecordAsWrittenUndefined(storage: string, dataSize: nat)
    requires dataSize <= |storage|
    ensures SkipRecordAsWritten(storage, dataSize).Undefined? <==>
      FindBlankLine(storage[..dataSize]) == Some(dataSize - 2) && (dataSize == |storage| || storage[dataSize] == RS)
  {
    var d := storage[..dataSize];
    match FindBlankLine(d)
    case None =>
    case Some(i) =>
      var next := i + 2;
      assert next <= dataSize;
      assert next < dataSize ==> storage[next] == d[next];
  }

  /**
   * Two records, each ended by a blank line and a separator, arrive; the
   * trailing separator of the second has not arrived yet. The first
   * skipRecord shifts the data left and leaves a copy of the first
   * separator just past the data; the second then reads it and is undefined,
   * where SkipFirstRecord empties the buffer.
   */
  lemma SkipRecordReadsStaleSeparator()
    ensures var storage := "A\n\n" + [RS] + "B\n\n" + " ";
      var shifted := "B\n\n" + [RS] + "B\n\n" + " ";
      SkipRecordAsWritten(storage, 7) == Skipped(shifted, 3) &&
      SkipRecordAsWritten(shifted, 3) == Undefined &&
      SkipFirstRecord(shifted[..3]) == Some([])
  {
    var storage := "A\n\n" + [RS] + "B\n\n" + " ";
    var shifted := "B\n\n" + [RS] + "B\n\n" + " ";
    assert storage[..7] == "A\n\n" + [RS] + "B\n\n";
    assert !BlankLineAt(storage[..7], 0);
    assert BlankLineAt(storage[..7], 1);
    assert FindBlankLine(storage[..7]) == Some(1);
    assert storage[3] == RS;
    assert storage[4..7] + storage[3..] == shifted;
    assert shifted[..3] == "B\n\n";
    assert !BlankLineAt(shifted[..3], 0);
    assert BlankLineAt(shifted[..3], 1);
    assert FindBlankLine(shifted[..3]) == Some(1);
    assert shifted[3] == RS;
  }
}
