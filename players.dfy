/** The players manifest `players.txt` of a synced server: one steam ID per line.  Lines
    are read as `bufio.Scanner` with `bufio.ScanLines` reads them, and a line names a
    player when, trimmed of white space and then of line breaks, it equals the ID. */
module Players {
  import opened Wrappers
  import opened Utf8
  import opened Text
  import opened Errors

  const NL: byte := 10
  const CR: byte := 13

  /** The index of the first `x` in `b`, or `|b|`. */
  function IndexOfByte(b: Bytes, x: byte): (k: nat)
    ensures k <= |b|
    ensures x !in b[..k]
    ensures k < |b| ==> b[k] == x
  {
    if b == [] then 0
    else if b[0] == x then 0
    else
      var k := 1 + IndexOfByte(b[1..], x);
      assert b[..k] == [b[0]] + b[1..][..k - 1];
      k
  }

  lemma {:induction false} IndexOfByteAppend(a: Bytes, b: Bytes, x: byte)
    requires x in a
    ensures IndexOfByte(a + b, x) == IndexOfByte(a, x)
  {
    if a[0] != x {
      assert (a + b)[1..] == a[1..] + b;
      assert x in a[1..] by { assert a == [a[0]] + a[1..]; }
      IndexOfByteAppend(a[1..], b, x);
    }
  }

  /** A line without the carriage return `bufio.ScanLines` drops from its end. */
  function DropCR(line: Bytes): (r: Bytes)
    ensures r == line || (line == r + [CR])
  {
    if line != [] && line[|line| - 1] == CR then line[..|line| - 1] else line
  }

  /** `bufio.ScanLines` over the whole input: the lines without their `\n`, and a last
      line without one when the input does not end in `\n`. */
  function ScanLines(b: Bytes): (r: seq<Bytes>)
    ensures b == [] <==> r == []
    decreases |b|
  {
    if b == [] then []
    else
      var k := IndexOfByte(b, NL);
      if k < |b| then [DropCR(b[..k])] + ScanLines(b[k + 1..]) else [DropCR(b)]
  }

  /** Whether the input ends right after a complete line. */
  predicate Terminated(b: Bytes) { b == [] || b[|b| - 1] == NL }

  lemma {:induction false} IndexOfByteFirst(a: Bytes, b: Bytes, x: byte)
    requires x !in a && b != [] && b[0] == x
    ensures IndexOfByte(a + b, x) == |a|
  {
    if a != [] {
      assert (a + b)[1..] == a[1..] + b;
      IndexOfByteFirst(a[1..], b, x);
    }
  }

  /** A line ended by `\n` is the first line, and scanning goes on after it. */
  lemma ScanLinesSplit(a: Bytes, rest: Bytes)
    requires NL !in a
    ensures ScanLines(a + [NL] + rest) == [DropCR(a)] + ScanLines(rest)
  {
    var b := a + [NL] + rest;
    assert b == a + ([NL] + rest);
    IndexOfByteFirst(a, [NL] + rest, NL);
    assert b[..|a|] == a;
    assert b[|a| + 1..] == rest;
  }

  /** A line ended by `\n` is scanned first, and the scan goes on after it unless the
      line is too long or names the player. */
  lemma ScanForSplit(a: Bytes, rest: Bytes, id: string)
    requires NL !in a
    ensures ScanFor(a + [NL] + rest, id) ==
              if |a| >= MaxScanTokenSize then Err(TokenTooLong)
              else if Matches(DropCR(a), id) then Ok(true)
              else ScanFor(rest, id)
  {
    var b := a + [NL] + rest;
    assert b == a + ([NL] + rest);
    IndexOfByteFirst(a, [NL] + rest, NL);
    assert b[..|a|] == a;
    assert b[|a| + 1..] == rest;
  }

  /** The first line of input that has a `\n`. */
  lemma FirstLine(d: Bytes) returns (a: Bytes, r: Bytes)
    requires NL in d
    ensures NL !in a && d == a + [NL] + r && |r| < |d|
  {
    var k := IndexOfByte(d, NL);
    a, r := d[..k], d[k + 1..];
    assert d == d[..k] + [d[k]] + d[k + 1..];
  }

  /** A complete line after complete lines is one more line. */
  lemma {:induction false} ScanLinesAppendLine(d: Bytes, x: Bytes)
    requires Terminated(d) && NL !in x
    ensures ScanLines(d + x + [NL]) == ScanLines(d) + [DropCR(x)]
    decreases |d|
  {
    hide ScanLines, DropCR;
    if d == [] {
      assert d + x + [NL] == x + [NL] + [];
      ScanLinesSplit(x, []);
    } else {
      assert NL in d by { assert d[|d| - 1] == NL; }
      var a, r := FirstLine(d);
      assert Terminated(r) by {
        if r != [] { assert r[|r| - 1] == d[|d| - 1]; }
      }
      assert d + x + [NL] == a + [NL] + (r + x + [NL]);
      ScanLinesSplit(a, r + x + [NL]);
      ScanLinesSplit(a, r);
      ScanLinesAppendLine(r, x);
    }
  }

  /** Ending an unfinished last line with `\n` changes no line. */
  lemma {:induction false} ScanLinesTerminate(d: Bytes)
    requires !Terminated(d)
    ensures ScanLines(d + [NL]) == ScanLines(d)
    decreases |d|
  {
    if NL in d {
      var a, r := FirstLine(d);
      assert r != [] && !Terminated(r) by {
        assert r != [];
        assert r[|r| - 1] == d[|d| - 1];
      }
      assert d + [NL] == a + [NL] + (r + [NL]);
      ScanLinesSplit(a, r + [NL]);
      ScanLinesSplit(a, r);
      ScanLinesTerminate(r);
    } else {
      assert d + [NL] == d + [NL] + [];
      ScanLinesSplit(d, []);
      assert IndexOfByte(d, NL) == |d|;
    }
  }

  /** A scanned line as the manifest compares it: `TrimSpace`, then `Trim` of `\n`, then
      `Trim` of `\r`. */
  function Clean(line: string): string
  {
    TrimChar(TrimChar(TrimSpace(line), '\n'), '\r')
  }

  /** A manifest line names `id`.  Go compares the cleaned line's bytes with the ID's; the
      line is compared here after decoding, which replaces an invalid UTF-8 sequence with
      U+FFFD.  The two agree except on a line with invalid UTF-8 and an ID holding U+FFFD,
      which no steam ID (a string of digits) does. */
  predicate Matches(line: Bytes, id: string) { Clean(Decode(line)) == id }

  /** The manifest `data` names the player `id` on some line. */
  predicate Listed(data: Bytes, id: string)
  {
    exists i :: 0 <= i < |ScanLines(data)| && Matches(ScanLines(data)[i], id)
  }

  /** An ID that a manifest line can name: it is its own cleaned form and has no line
      break inside.  Steam IDs, strings of digits, are such IDs. */
  predicate Nameable(id: string)
  {
    Clean(id) == id && '\n' !in id && |Encode(id)| < MaxScanTokenSize
  }

  /** `bufio.MaxScanTokenSize`: the most bytes the scanner's buffer grows to. */
  const MaxScanTokenSize: nat := 64 * 1024

  /** What the scanner loop of `UpdatePlayersFile` ends with: whether some line names
      `id`, or `ErrTooLong` for a line read before the first one that names it which, with
      its carriage return, fills the buffer without reaching a `\n`. */
  function ScanFor(b: Bytes, id: string): (r: Result<bool, Error>)
    ensures r.Err? ==> r.error == TokenTooLong
    decreases |b|
  {
    if b == [] then Ok(false)
    else
      var k := IndexOfByte(b, NL);
      if k >= MaxScanTokenSize then Err(TokenTooLong)
      else if Matches(DropCR(b[..k]), id) then Ok(true)
      else if k < |b| then ScanFor(b[k + 1..], id)
      else Ok(false)
  }

  /** Where the scanner gets through, it finds the player exactly when the manifest
      names it. */
  lemma {:induction false} ScanForListed(b: Bytes, id: string)
    requires ScanFor(b, id).Ok?
    ensures ScanFor(b, id).value <==> Listed(b, id)
    decreases |b|
  {
    if b != [] {
      var k := IndexOfByte(b, NL);
      var lines := ScanLines(b);
      if k < |b| {
        var rest := ScanLines(b[k + 1..]);
        assert lines == [DropCR(b[..k])] + rest;
        if !Matches(DropCR(b[..k]), id) {
          ScanForListed(b[k + 1..], id);
          if Listed(b, id) {
            var i :| 0 <= i < |lines| && Matches(lines[i], id);
            assert Matches(rest[i - 1], id);
          }
          if Listed(b[k + 1..], id) {
            var j :| 0 <= j < |rest| && Matches(rest[j], id);
            assert lines[j + 1] == rest[j];
          }
        } else {
          assert Matches(lines[0], id);
        }
      } else {
        assert b[..k] == b;
        assert lines == [DropCR(b)];
        assert lines[0] == DropCR(b[..k]);
      }
    }
  }

  /** A first line that fills the scanner's buffer without a line break ends the scan
      with `ErrTooLong`, whatever follows it. */
  lemma OverlongFirstLine(b: Bytes, id: string)
    requires |b| >= MaxScanTokenSize && NL !in b[..MaxScanTokenSize]
    ensures ScanFor(b, id) == Err(TokenTooLong)
  {
  }

  /** What the manifest gets appended for a player it does not name yet, as written: the
      ID and a line break, right after whatever the file ends with. */
  function AppendedAsWritten(data: Bytes, id: string): Bytes
  {
    Encode(id + "\n")
  }

  /** What the manifest gets appended for a player it does not name yet: the ID on a line
      of its own, after a line break that ends an unfinished last line. */
  function Appended(data: Bytes, id: string): (r: Bytes)
    ensures Terminated(data) ==> r == Encode(id) + [NL]
    ensures !Terminated(data) ==> r == [NL] + Encode(id) + [NL]
  {
    EncodeAppend(id, "\n");
    EncodeAsciiChar('\n');
    (if Terminated(data) then [] else [NL]) + Encode(id + "\n")
  }

  /** No byte of an encoding is a line feed unless the string has one. */
  lemma {:induction false} EncodeNoNewline(s: string)
    requires '\n' !in s
    ensures NL !in Encode(s)
  {
    if s != [] {
      assert s == [s[0]] + s[1..];
      EncodeNoNewline(s[1..]);
      var e := EncodeChar(s[0]);
      assert NL !in e by {
        if |e| == 1 { assert e[0] as int == s[0] as int; }
      }
    }
  }

  /** The encoding of a string that does not end in `\r` does not end in the byte 13. */
  lemma EncodeNoTrailingCR(s: string)
    requires s == [] || s[|s| - 1] != '\r'
    ensures DropCR(Encode(s)) == Encode(s)
  {
    if s != [] {
      var n := |s| - 1;
      assert s == s[..n] + [s[n]];
      EncodeAppend(s[..n], [s[n]]);
      EncodeOne(s[n]);
      hide Encode, EncodeChar;
      var e := EncodeChar(s[n]);
      assert Encode(s)[|Encode(s)| - 1] == e[|e| - 1];
      if |e| == 1 { assert e[0] as int == s[n] as int; }
    }
  }

  /** A nameable ID does not end in `\r`. */
  lemma NameableNoCR(id: string)
    requires Nameable(id)
    ensures id == [] || id[|id| - 1] != '\r'
  {
  }

  /** The encoding of a nameable ID, read as a line, names it. */
  lemma EncodedMatches(id: string)
    requires Nameable(id)
    ensures Matches(Encode(id), id)
  {
    DecodeEncode(id);
  }

  /** A manifest names every player its last line names. */
  lemma ListedByLast(data: Bytes, id: string)
    requires ScanLines(data) != [] && Matches(ScanLines(data)[|ScanLines(data)| - 1], id)
    ensures Listed(data, id)
  {
  }

  /** A nameable ID, written after complete lines and ended by `\n`, is one more line,
      and that line names it. */
  lemma EntryIsLine(d: Bytes, id: string)
    requires Terminated(d) && Nameable(id)
    ensures ScanLines(d + Encode(id) + [NL]) == ScanLines(d) + [Encode(id)]
    ensures Listed(d + Encode(id) + [NL], id)
  {
    EncodeNoNewline(id);
    NameableNoCR(id);
    EncodeNoTrailingCR(id);
    ScanLinesAppendLine(d, Encode(id));
    EncodedMatches(id);
    ListedByLast(d + Encode(id) + [NL], id);
  }

  /** Appending what `Appended` gives keeps every line of the manifest and adds the ID
      as a line of its own, which then names the player. */
  lemma AppendedIsLine(data: Bytes, id: string)
    requires Nameable(id)
    ensures ScanLines(data + Appended(data, id)) == ScanLines(data) + [Encode(id)]
    ensures Listed(data + Appended(data, id), id)
  {
    if Terminated(data) {
      assert data + Appended(data, id) == data + Encode(id) + [NL];
      EntryIsLine(data, id);
    } else {
      var d := data + [NL];
      assert data + Appended(data, id) == d + Encode(id) + [NL];
      ScanLinesTerminate(data);
      EntryIsLine(d, id);
    }
  }

  /** After complete lines none of which names the player, a complete line that names
      it and fits the buffer is found. */
  lemma {:induction false} ScanForAppendLine(d: Bytes, x: Bytes, id: string)
    requires Terminated(d) && ScanFor(d, id) == Ok(false)
    requires NL !in x && |x| < MaxScanTokenSize && Matches(DropCR(x), id)
    ensures ScanFor(d + x + [NL], id) == Ok(true)
    decreases |d|
  {
    hide ScanFor, Matches, DropCR;
    if d == [] {
      assert d + x + [NL] == x + [NL] + [];
      ScanForSplit(x, [], id);
    } else {
      assert NL in d by { assert d[|d| - 1] == NL; }
      var a, r := FirstLine(d);
      assert Terminated(r) by {
        if r != [] { assert r[|r| - 1] == d[|d| - 1]; }
      }
      assert d + x + [NL] == a + [NL] + (r + x + [NL]);
      ScanForSplit(a, r + x + [NL], id);
      ScanForSplit(a, r, id);
      ScanForAppendLine(r, x, id);
    }
  }

  /** Ending an unfinished last line with `\n` changes nothing the scanner finds. */
  lemma {:induction false} ScanForTerminate(d: Bytes, id: string)
    requires !Terminated(d)
    ensures ScanFor(d + [NL], id) == ScanFor(d, id)
    decreases |d|
  {
    if NL in d {
      var a, r := FirstLine(d);
      assert r != [] && !Terminated(r) by {
        assert r != [];
        assert r[|r| - 1] == d[|d| - 1];
      }
      assert d + [NL] == a + [NL] + (r + [NL]);
      ScanForSplit(a, r + [NL], id);
      ScanForSplit(a, r, id);
      ScanForTerminate(r, id);
    } else {
      assert d + [NL] == d + [NL] + [];
      ScanForSplit(d, [], id);
      assert IndexOfByte(d, NL) == |d|;
      assert d[..|d|] == d;
    }
  }

  /** The manifest created for a player holds a line the scanner finds. */
  lemma CreatedFound(id: string)
    requires Nameable(id)
    ensures ScanFor(Encode(id) + [NL], id) == Ok(true)
  {
    EncodeNoNewline(id);
    NameableNoCR(id);
    EncodeNoTrailingCR(id);
    EncodedMatches(id);
    assert Encode(id) + [NL] == Encode(id) + [NL] + [];
    ScanForSplit(Encode(id), [], id);
  }

  /** Once the ID is appended, the scanner finds it: the manifest's earlier lines were
      all read without a match, and the ID's own line fits the buffer. */
  lemma AppendedFound(data: Bytes, id: string)
    requires Nameable(id) && ScanFor(data, id) == Ok(false)
    ensures ScanFor(data + Appended(data, id), id) == Ok(true)
  {
    hide ScanFor, Matches, Encode;
    EncodeNoNewline(id);
    NameableNoCR(id);
    EncodeNoTrailingCR(id);
    EncodedMatches(id);
    if Terminated(data) {
      assert data + Appended(data, id) == data + Encode(id) + [NL];
      ScanForAppendLine(data, Encode(id), id);
    } else {
      ScanForTerminate(data, id);
      assert data + Appended(data, id) == (data + [NL]) + Encode(id) + [NL];
      ScanForAppendLine(data + [NL], Encode(id), id);
    }
  }

  /** As written, the scan of the manifest `a` finds no `b`, and after `b` is appended
      the scan still finds none, so the next update appends it again. */
  lemma AsWrittenScansMiss()
    ensures ScanFor([97], "b") == Ok(false)
    ensures ScanFor([97] + AppendedAsWritten([97], "b"), "b") == Ok(false)
  {
    var a: Bytes := [97];
    assert ScanFor(a, "b") == Ok(false) by {
      assert IndexOfByte(a, NL) == 1;
      assert a[..1] == a;
      assert Decode(a) == "a" by {
        assert DecodeRune(a) == ('a', 1);
        assert a[1..] == [];
      }
      assert Clean("a") == "a" by {
        TrimSpaceNoop("a");
      }
    }
    var data := a + AppendedAsWritten(a, "b");
    AppendedAsWrittenNotLine();
    EncodeAppend("b", "\n");
    EncodeAsciiChar('b');
    EncodeAsciiChar('\n');
    assert data == [97, 98] + [NL] + [];
    ScanForSplit([97, 98], [], "b");
    ScanForListed(data, "b");
  }

  /** As written, the ID is glued to an unfinished last line: after appending "b" to the
      manifest "a" no line names "b". */
  lemma AppendedAsWrittenNotLine()
    ensures !Listed([97] + AppendedAsWritten([97], "b"), "b")
  {
    var data: Bytes := [97];
    EncodeAppend("b", "\n");
    EncodeAsciiChar('b');
    EncodeAsciiChar('\n');
    var b := data + AppendedAsWritten(data, "b");
    assert b == [97, 98, 10];
    assert IndexOfByte(b, NL) == 2;
    assert b[..2] == [97, 98];
    assert b[3..] == [];
    var lines := ScanLines(b);
    assert lines == [[97, 98]];
    var ab: Bytes := [97, 98];
    var bb: Bytes := [98];
    assert Decode(ab) == "ab" by {
      assert DecodeRune(ab) == ('a', 1);
      assert ab[1..] == bb;
      assert DecodeRune(bb) == ('b', 1);
      assert bb[1..] == [];
    }
    assert Clean("ab") == "ab" by {
      TrimSpaceNoop("ab");
    }
  }
}
