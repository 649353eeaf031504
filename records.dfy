/**
 * The persistence record codec of the daemon: one post is stored as the
 * line `username,message,timestamp` (format_file_output) and read back by
 * splitting on ',' with std::getline (parse_data).
 */
module Records {

  const Delimiter: char := ','

  predicate IsLineBreak(c: char) {
    c == '\r' || c == '\n'
  }

  predicate NoLineBreaks(s: string) {
    '\r' !in s && '\n' !in s
  }

  /** A field that survives a store/load round trip unchanged. */
  predicate PlainField(s: string) {
    Delimiter !in s && NoLineBreaks(s)
  }

  /** Number of delimiters in a line. */
  function Commas(s: string): (n: nat) {
    multiset(s)[Delimiter]
  }

  /** regex_replace(s, "[\r\n]+", ""): every CR and LF is dropped, and a
      field without line breaks comes back unchanged. */
  function StripLineBreaks(s: string): (r: string)
    ensures NoLineBreaks(r)
    ensures NoLineBreaks(s) ==> r == s
  {
    if s == [] then []
    else
      assert s == [s[0]] + s[1..];
      (if IsLineBreak(s[0]) then [] else [s[0]]) + StripLineBreaks(s[1..])
  }

  /** Stripping line breaks keeps every delimiter. */
  lemma {:induction false} StripKeepsCommas(s: string)
    ensures Commas(StripLineBreaks(s)) == Commas(s)
  {
    if s != [] {
      StripKeepsCommas(s[1..]);
      assert s == [s[0]] + s[1..];
      var head := if IsLineBreak(s[0]) then [] else [s[0]];
      assert multiset(head + StripLineBreaks(s[1..])) == multiset(head) + multiset(StripLineBreaks(s[1..]));
      assert multiset(s) == multiset([s[0]]) + multiset(s[1..]);
    }
  }

  /** The stored line for one post: the three fields with line breaks
      removed, joined by the delimiter. */
  function FormatFileOutput(username: string, message: string, timestamp: string): (r: string)
    ensures NoLineBreaks(r)
  {
    var u, m, t := StripLineBreaks(username), StripLineBreaks(message), StripLineBreaks(timestamp);
    u + [Delimiter] + m + [Delimiter] + t
  }

  /** A stored line holds the two joining delimiters and every delimiter of
      the three fields. */
  lemma FormatCommas(username: string, message: string, timestamp: string)
    ensures Commas(FormatFileOutput(username, message, timestamp))
         == 2 + Commas(username) + Commas(message) + Commas(timestamp)
  {
    var u, m, t := StripLineBreaks(username), StripLineBreaks(message), StripLineBreaks(timestamp);
    StripKeepsCommas(username);
    StripKeepsCommas(message);
    StripKeepsCommas(timestamp);
    assert multiset(u + [Delimiter] + m + [Delimiter] + t)
        == multiset(u) + multiset{Delimiter} + multiset(m) + multiset{Delimiter} + multiset(t);
  }

  /** Where the field at the start of `s` ends: the first delimiter, or the
      end of the line. */
  function FieldEnd(s: string): (k: nat)
    ensures k <= |s|
    ensures k < |s| ==> s[k] == Delimiter
    ensures forall i :: 0 <= i < k ==> s[i] != Delimiter
  {
    if s == [] || s[0] == Delimiter then 0 else 1 + FieldEnd(s[1..])
  }

  /** The tokens successive std::getline(ss, token, ',') calls yield: each
      call takes the text up to the next delimiter and consumes it; a call
      that finds nothing left fails, so an empty line has no field and a
      trailing delimiter yields no trailing empty field. */
  function Fields(s: string): (r: seq<string>)
    ensures r == [] <==> s == []
    decreases |s|
  {
    if s == [] then []
    else
      var k := FieldEnd(s);
      if k == |s| then [s] else [s[..k]] + Fields(s[k + 1..])
  }

  /** parse_data: repeated getline calls, one token per iteration. */
  method ParseData(data: string) returns (components: seq<string>)
    ensures components == Fields(data)
  {
    components := [];
    var pos := 0;
    assert data[pos..] == data;
    while pos < |data|
      invariant 0 <= pos <= |data|
      invariant components + Fields(data[pos..]) == Fields(data)
      decreases |data| - pos
    {
      var token, next := Getline(data, pos);
      assert components + Fields(data[pos..]) == (components + [token]) + Fields(data[next..]);
      components, pos := components + [token], next;
    }
    assert data[|data|..] == [];
  }

  /** One std::getline(ss, token, ',') call on a stream positioned at
      `pos`: the characters up to the next delimiter, which is consumed. */
  method Getline(data: string, pos: nat) returns (token: string, next: nat)
    requires pos < |data|
    ensures pos < next <= |data|
    ensures Fields(data[pos..]) == [token] + Fields(data[next..])
  {
    var stop := pos;
    token := "";
    while stop < |data| && data[stop] != Delimiter
      invariant pos <= stop <= |data|
      invariant token == data[pos..stop]
      invariant forall i :: pos <= i < stop ==> data[i] != Delimiter
    {
      assert data[pos..stop + 1] == data[pos..stop] + [data[stop]];
      token := token + [data[stop]];
      stop := stop + 1;
    }
    NextField(data, pos, stop);
    next := if stop < |data| then stop + 1 else stop;
  }

  /** One getline call starting at `start` reads up to `stop`, the next
      delimiter or the end of the line, and leaves the rest for the next call. */
  lemma NextField(data: string, start: nat, stop: nat)
    requires start < |data| && start <= stop <= |data|
    requires stop < |data| ==> data[stop] == Delimiter
    requires forall i :: start <= i < stop ==> data[i] != Delimiter
    ensures Fields(data[start..]) == [data[start..stop]] + Fields(data[if stop < |data| then stop + 1 else stop..])
  {
    var field := data[start..stop];
    assert Delimiter !in field by {
      forall q | 0 <= q < |field| ensures field[q] != Delimiter {
        assert field[q] == data[start + q];
      }
    }
    if stop < |data| {
      assert data[start..] == field + [Delimiter] + data[stop + 1..];
      FieldsOfJoin(field, data[stop + 1..]);
    } else {
      assert data[start..] == field;
      FieldsOfPlain(field);
      assert data[stop..] == [];
    }
  }

  /** FieldEnd is the first delimiter (or the end of the line). */
  lemma FieldEndIs(s: string, k: nat)
    requires k <= |s|
    requires k < |s| ==> s[k] == Delimiter
    requires forall i :: 0 <= i < k ==> s[i] != Delimiter
    ensures FieldEnd(s) == k
  {
  }

  /** A delimiter-free field followed by a delimiter is split off whole. */
  lemma FieldsOfJoin(a: string, b: string)
    requires Delimiter !in a
    ensures Fields(a + [Delimiter] + b) == [a] + Fields(b)
  {
    var s := a + [Delimiter] + b;
    assert forall i :: 0 <= i < |a| ==> s[i] == a[i];
    FieldEndIs(s, |a|);
    assert s[..|a|] == a;
    assert s[|a| + 1..] == b;
  }

  /** A non-empty delimiter-free line is one field. */
  lemma FieldsOfPlain(t: string)
    requires t != [] && Delimiter !in t
    ensures Fields(t) == [t]
  {
    FieldEndIs(t, |t|);
  }

  /** The number of fields getline yields: one per delimiter, plus one
      unless the line is empty or ends with the delimiter. */
  lemma {:induction false} FieldsCount(s: string)
    ensures |Fields(s)| == Commas(s) + (if s != [] && s[|s| - 1] != Delimiter then 1 else 0)
    decreases |s|
  {
    if s != [] {
      var k := FieldEnd(s);
      if k == |s| {
        assert Delimiter !in multiset(s);
      } else {
        var rest := s[k + 1..];
        assert Commas(s) == 1 + Commas(rest) by {
          CommasAfterField(s, k);
        }
        FieldsCount(rest);
        if rest != [] {
          assert s[|s| - 1] == rest[|rest| - 1];
        }
      }
    }
  }

  /** A line whose first delimiter is at `k` has one delimiter more than
      the text after it. */
  lemma CommasAfterField(s: string, k: nat)
    requires k < |s| && s[k] == Delimiter
    requires forall i :: 0 <= i < k ==> s[i] != Delimiter
    ensures Commas(s) == 1 + Commas(s[k + 1..])
  {
    var rest := s[k + 1..];
    assert s == s[..k] + [s[k]] + rest;
    assert Delimiter !in multiset(s[..k]);
    assert multiset(s) == multiset(s[..k]) + multiset{Delimiter} + multiset(rest);
  }

  /** Every field getline yields is free of the delimiter. */
  lemma {:induction false} FieldsHaveNoDelimiter(s: string)
    ensures forall f :: f in Fields(s) ==> Delimiter !in f
    decreases |s|
  {
    if s != [] {
      var k := FieldEnd(s);
      var head := s[..k];
      assert Delimiter !in head by {
        assert forall i :: 0 <= i < k ==> head[i] == s[i];
      }
      if k == |s| {
        assert head == s;
        assert Fields(s) == [head];
      } else {
        var rest := s[k + 1..];
        FieldsHaveNoDelimiter(rest);
        assert Fields(s) == [head] + Fields(rest);
      }
    }
  }

  /** Reading back a stored record gives the three fields, provided no field
      holds a delimiter or a line break and the timestamp is non-empty. */
  lemma RecordRoundTrip(username: string, message: string, timestamp: string)
    requires PlainField(username) && PlainField(message) && PlainField(timestamp)
    requires timestamp != []
    ensures Fields(FormatFileOutput(username, message, timestamp)) == [username, message, timestamp]
  {
    FormatJoins(username, message, timestamp);
    ThreeFields(username, message, timestamp);
  }

  /** Three delimiter-free fields joined by delimiters read back as three
      fields, provided the last one is not empty. */
  lemma ThreeFields(username: string, message: string, timestamp: string)
    requires Delimiter !in username && Delimiter !in message && Delimiter !in timestamp
    requires timestamp != []
    ensures Fields(username + [Delimiter] + (message + [Delimiter] + timestamp)) == [username, message, timestamp]
  {
    FieldsOfJoin(username, message + [Delimiter] + timestamp);
    LastTwoFields(message, timestamp);
  }

  /** The message and timestamp part of a record reads back as two fields. */
  lemma LastTwoFields(message: string, timestamp: string)
    requires Delimiter !in message
    requires timestamp != [] && Delimiter !in timestamp
    ensures Fields(message + [Delimiter] + timestamp) == [message, timestamp]
  {
    FieldsOfJoin(message, timestamp);
    FieldsOfPlain(timestamp);
  }

  /** With an empty timestamp the trailing field is lost: the line reads
      back as two fields. */
  lemma EmptyTimestampLosesField(username: string, message: string)
    requires PlainField(username) && PlainField(message)
    ensures Fields(FormatFileOutput(username, message, "")) == [username, message]
  {
    var tail := message + [Delimiter] + "";
    FormatJoins(username, message, "");
    FieldsOfJoin(username, tail);
    FieldsOfJoin(message, "");
  }

  /** Fields without line breaks are stored verbatim. */
  lemma FormatJoins(username: string, message: string, timestamp: string)
    requires NoLineBreaks(username) && NoLineBreaks(message) && NoLineBreaks(timestamp)
    ensures FormatFileOutput(username, message, timestamp)
         == username + [Delimiter] + (message + [Delimiter] + timestamp)
  {
    assert StripLineBreaks(username) == username;
    assert StripLineBreaks(message) == message;
    assert StripLineBreaks(timestamp) == timestamp;
  }

  /** A delimiter inside the message splits the record into more than three
      fields (for a non-empty timestamp). */
  lemma CommaInMessageSplits(username: string, message: string, timestamp: string)
    requires Commas(message) > 0
    requires timestamp != [] && PlainField(timestamp)
    ensures |Fields(FormatFileOutput(username, message, timestamp))| > 3
  {
    var r := FormatFileOutput(username, message, timestamp);
    FormatCommas(username, message, timestamp);
    FieldsCount(r);
    assert r[|r| - 1] == timestamp[|timestamp| - 1];
  }
}
