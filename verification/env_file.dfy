/** The key=value rewrite of the .env file (config/config.py, update_env_vars),
    as a function from the file's lines and the dict of new values to the lines
    written back. Reading and writing the file itself is not modelled. */
module EnvFile {
  import opened Wrappers
  import opened Text

  /** The dict passed to update_env_vars, in its iteration (insertion) order. */
  type Updates = seq<(string, string)>

  /** A Python dict never holds a key twice. */
  predicate DistinctKeys(values: Updates) {
    forall i, j :: 0 <= i < j < |values| ==> values[i].0 != values[j].0
  }

  /** Two dicts with the same keys in the same order. */
  predicate SameKeys(v1: Updates, v2: Updates) {
    |v1| == |v2| && forall i :: 0 <= i < |v1| ==> v1[i].0 == v2[i].0
  }

  /** values.get(key). */
  function Lookup(values: Updates, key: string): Option<string> {
    if |values| == 0 then None
    else if values[0].0 == key then Some(values[0].1)
    else Lookup(values[1..], key)
  }

  /** A line update_env_vars copies without looking at it: a comment (after
      stripping) or a line with no '='. */
  predicate IsPassthrough(line: string) {
    StartsWith(Strip(line), "#") || '=' !in line
  }

  /** line.split("=", 1)[0].strip(): the name a key=value line assigns. */
  function KeyOf(line: string): string
    requires '=' in line
  {
    Strip(line[..IndexOf(line, '=').value])
  }

  /** The f-string f"{key}={value}". */
  function Assignment(key: string, value: string): string {
    key + "=" + value
  }

  /** A key that, once written as key=value, reads back as the same key: it
      holds no '=', has no surrounding whitespace and does not start with '#'.
      Every key the program writes (TOKEN, TELEGRAM_BOT_TOKEN,
      TELEGRAM_CHAT_ID) is one. */
  predicate IsPlainKey(key: string) {
    '=' !in key && IsStripped(key) && !StartsWith(key, "#")
  }

  predicate AllPlain(values: Updates) {
    forall i :: 0 <= i < |values| ==> IsPlainKey(values[i].0)
  }

  /** The line is a key=value line for key. */
  predicate LineAssigns(line: string, key: string) {
    !IsPassthrough(line) && KeyOf(line) == key
  }

  /** The loop body of update_env_vars for one line. */
  function RewriteLine(line: string, values: Updates): (r: string)
  {
    if IsPassthrough(line) then line
    else
      match Lookup(values, KeyOf(line))
      case Some(v) => Assignment(KeyOf(line), v)
      case None => line
  }

  /** Some line assigns key, so update_env_vars puts key in updated_keys. */
  predicate Assigns(lines: seq<string>, key: string) {
    |lines| > 0 && (Assigns(lines[..|lines| - 1], key) || LineAssigns(lines[|lines| - 1], key))
  }

  /** The entries, in the dict's order, whose key no line assigns: the list
      "missing" of update_env_vars, with each key's value. */
  function Missing(lines: seq<string>, values: Updates): Updates {
    if |values| == 0 then []
    else (if Assigns(lines, values[0].0) then [] else [values[0]]) + Missing(lines, values[1..])
  }

  /** One blank line goes before appended keys exactly when the text so far
      is non-empty and its last line is not blank. */
  function Separator(prefix: seq<string>): seq<string> {
    if |prefix| > 0 && Strip(prefix[|prefix| - 1]) != "" then [""] else []
  }

  /** One key=value line per entry. */
  function Assignments(entries: Updates): (r: seq<string>)
    ensures |r| == |entries|
  {
    seq(|entries|, j requires 0 <= j < |entries| => Assignment(entries[j].0, entries[j].1))
  }

  /** The original lines, each passed through RewriteLine. */
  function RewriteLines(lines: seq<string>, values: Updates): (p: seq<string>)
    ensures |p| == |lines|
  {
    seq(|lines|, i requires 0 <= i < |lines| => RewriteLine(lines[i], values))
  }

  /** The lines update_env_vars writes back for the given lines and values. */
  function Rewrite(lines: seq<string>, values: Updates): (r: seq<string>)
    ensures |r| >= |lines|
  {
    var prefix := RewriteLines(lines, values);
    var missing := Missing(lines, values);
    if missing == [] then prefix else prefix + Separator(prefix) + Assignments(missing)
  }

  lemma ConcatSplit<T>(a: seq<T>, b: seq<T>)
    ensures (a + b)[..|a|] == a && (a + b)[|a|..] == b
  {
  }

  /** An entry is appended exactly when it belongs to the dict and no line
      assigns its key. */
  lemma {:induction false} MissingMembers(lines: seq<string>, values: Updates)
    ensures |Missing(lines, values)| <= |values|
    ensures forall e :: e in Missing(lines, values) <==> e in values && !Assigns(lines, e.0)
  {
    if |values| > 0 {
      MissingMembers(lines, values[1..]);
      assert values == [values[0]] + values[1..];
    }
  }

  /** Each missing key is appended once. */
  lemma {:induction false} MissingDistinct(lines: seq<string>, values: Updates)
    requires DistinctKeys(values)
    ensures DistinctKeys(Missing(lines, values))
  {
    if |values| > 0 {
      var rest := Missing(lines, values[1..]);
      assert DistinctKeys(values[1..]);
      MissingDistinct(lines, values[1..]);
      MissingMembers(lines, values[1..]);
      forall j | 0 <= j < |rest|
        ensures rest[j].0 != values[0].0
      {
        assert rest[j] in rest;
        var n :| 0 <= n < |values[1..]| && values[1..][n] == rest[j];
        assert values[n + 1] == rest[j];
      }
    }
  }

  /** Nothing is missing exactly when every key is assigned by some line. */
  lemma {:induction false} MissingEmpty(lines: seq<string>, values: Updates)
    ensures Missing(lines, values) == [] <==> forall i :: 0 <= i < |values| ==> Assigns(lines, values[i].0)
  {
    if |values| > 0 {
      MissingEmpty(lines, values[1..]);
      if Missing(lines, values) == [] {
        forall i | 0 <= i < |values|
          ensures Assigns(lines, values[i].0)
        {
          if i > 0 {
            assert values[i] == values[1..][i - 1];
          }
        }
      }
      if forall i :: 0 <= i < |values| ==> Assigns(lines, values[i].0) {
        forall i | 0 <= i < |values[1..]|
          ensures Assigns(lines, values[1..][i].0)
        {
          assert values[1..][i] == values[i + 1];
        }
      }
    }
  }

  /** What update_env_vars appends: nothing when every key was already
      assigned; otherwise one blank separator when the rewritten text is
      non-empty and ends in a non-blank line, then one key=value line per
      missing entry, in the dict's order. */
  lemma RewriteAppendsMissing(lines: seq<string>, values: Updates)
    ensures var r := Rewrite(lines, values);
            var m := Missing(lines, values);
            && (|r| == |lines| <==> m == [])
            && r[..|lines|] == RewriteLines(lines, values)
            && (m != [] ==> r[|lines|..] == Separator(r[..|lines|]) + Assignments(m))
  {
    var prefix := RewriteLines(lines, values);
    var m := Missing(lines, values);
    var r := Rewrite(lines, values);
    if m != [] {
      var tail := Separator(prefix) + Assignments(m);
      assert r == prefix + tail;
      assert |tail| > 0;
      ConcatSplit(prefix, tail);
    } else {
      assert r == prefix;
    }
  }

  /** Writing key=value for a plain key yields a line that assigns that key. */
  lemma AssignmentReadsBack(key: string, value: string)
    requires IsPlainKey(key)
    ensures '=' in Assignment(key, value)
    ensures LineAssigns(Assignment(key, value), key)
  {
    var a := Assignment(key, value);
    assert a[|key|] == '=';
    assert a[..|key|] == key;
    IndexOfFirst(a, '=');
    var idx := IndexOf(a, '=').value;
    assert idx == |key|;
    StripFacts(key);
    StripFacts(a);
    if |key| > 0 {
      assert a[0] == key[0];
      assert key[..1] != "#";
    } else {
      assert a[0] == '=';
    }
  }

  lemma {:induction false} AssignsAt(lines: seq<string>, i: nat)
    requires i < |lines| && !IsPassthrough(lines[i])
    ensures Assigns(lines, KeyOf(lines[i]))
  {
    if i < |lines| - 1 {
      assert lines[..|lines| - 1][i] == lines[i];
      AssignsAt(lines[..|lines| - 1], i);
    }
  }

  lemma {:induction false} LookupFacts(values: Updates, key: string)
    ensures Lookup(values, key).Some? <==> exists i :: 0 <= i < |values| && values[i].0 == key
    ensures Lookup(values, key).Some? ==> (key, Lookup(values, key).value) in values
    ensures Lookup(values, key).Some? && AllPlain(values) ==> IsPlainKey(key)
  {
    if |values| > 0 && values[0].0 != key {
      LookupFacts(values[1..], key);
      if exists i :: 0 <= i < |values| && values[i].0 == key {
        var i :| 0 <= i < |values| && values[i].0 == key;
        assert values[1..][i - 1].0 == key;
      }
      if Lookup(values, key).Some? {
        var i :| 0 <= i < |values[1..]| && values[1..][i].0 == key;
        assert values[i + 1].0 == key;
      }
    }
  }

  /** With distinct keys, the value get() returns is the entry's own. */
  lemma {:induction false} LookupEntry(values: Updates, e: (string, string))
    requires DistinctKeys(values) && e in values
    ensures Lookup(values, e.0) == Some(e.1)
  {
    if values[0] != e {
      assert e in values[1..];
      assert DistinctKeys(values[1..]);
      LookupEntry(values[1..], e);
    }
  }

  lemma {:induction false} LookupSameKeys(v1: Updates, v2: Updates, key: string)
    requires SameKeys(v1, v2)
    ensures Lookup(v1, key).Some? <==> Lookup(v2, key).Some?
  {
    if |v1| > 0 && v1[0].0 != key {
      LookupSameKeys(v1[1..], v2[1..], key);
    }
  }

  lemma {:induction false} MissingSameKeys(lines: seq<string>, v1: Updates, v2: Updates)
    requires SameKeys(v1, v2)
    ensures SameKeys(Missing(lines, v1), Missing(lines, v2))
  {
    if |v1| > 0 {
      MissingSameKeys(lines, v1[1..], v2[1..]);
    }
  }

  lemma {:induction false} AssignsWitness(lines: seq<string>, key: string) returns (i: nat)
    requires Assigns(lines, key)
    ensures i < |lines| && LineAssigns(lines[i], key)
  {
    if LineAssigns(lines[|lines| - 1], key) {
      i := |lines| - 1;
    } else {
      i := AssignsWitness(lines[..|lines| - 1], key);
    }
  }

  /** The rewritten text is the rewritten original lines, at most one
      separator line, then the appended entries. */
  lemma RewriteSize(lines: seq<string>, values: Updates)
    ensures var r := Rewrite(lines, values);
            var m := Missing(lines, values);
            && |lines| <= |r| - |m| <= |lines| + 1
            && (m == [] ==> |r| == |lines|)
  {
  }

  /** An original line is rewritten in place. */
  lemma RewriteHeadAt(lines: seq<string>, values: Updates, i: nat)
    requires i < |lines|
    ensures i < |Rewrite(lines, values)|
    ensures Rewrite(lines, values)[i] == RewriteLine(lines[i], values)
  {
    var prefix := RewriteLines(lines, values);
    var m := Missing(lines, values);
    if m != [] {
      var tail := Separator(prefix) + Assignments(m);
      assert Rewrite(lines, values) == prefix + tail;
      assert (prefix + tail)[i] == prefix[i];
    }
    assert prefix[i] == RewriteLine(lines[i], values);
  }

  /** The original lines keep their places: a comment or a line without
      '=' is copied as is, a key=value line for a key of the dict becomes
      exactly key=value with the dict's value, and any other line is copied
      as is. */
  lemma RewriteOriginalLine(lines: seq<string>, values: Updates, i: nat)
    requires i < |lines|
    ensures var r := Rewrite(lines, values);
            && i < |r|
            && (IsPassthrough(lines[i]) ==> r[i] == lines[i])
            && (!IsPassthrough(lines[i]) && Lookup(values, KeyOf(lines[i])).Some? ==>
                  r[i] == KeyOf(lines[i]) + "=" + Lookup(values, KeyOf(lines[i])).value)
            && (!IsPassthrough(lines[i]) && Lookup(values, KeyOf(lines[i])).None? ==> r[i] == lines[i])
  {
    RewriteHeadAt(lines, values, i);
  }

  /** Between the original lines and the appended ones sits the blank
      separator, if any. */
  lemma RewriteMiddleAt(lines: seq<string>, values: Updates, i: nat)
    requires |lines| <= i < |Rewrite(lines, values)| - |Missing(lines, values)|
    ensures Rewrite(lines, values)[i] == ""
  {
    var prefix := RewriteLines(lines, values);
    var tail := Separator(prefix) + Assignments(Missing(lines, values));
    assert Rewrite(lines, values) == prefix + tail;
    assert Rewrite(lines, values)[i] == tail[i - |lines|];
  }

  /** The j-th missing entry, an entry of the dict whose key no line
      assigns, is written as the j-th appended line. */
  lemma RewriteTailAt(lines: seq<string>, values: Updates, j: nat)
    requires j < |Missing(lines, values)|
    ensures var r := Rewrite(lines, values);
            var m := Missing(lines, values);
            && |lines| <= |r| - |m| + j < |r|
            && r[|r| - |m| + j] == Assignment(m[j].0, m[j].1)
            && m[j] in values && !Assigns(lines, m[j].0)
  {
    var m := Missing(lines, values);
    var prefix := RewriteLines(lines, values);
    var head := prefix + Separator(prefix);
    assert Rewrite(lines, values) == head + Assignments(m);
    assert Rewrite(lines, values)[|head| + j] == Assignments(m)[j];
    MissingMembers(lines, values);
    assert m[j] in m;
  }

  lemma PlainEntry(values: Updates, e: (string, string))
    requires AllPlain(values) && e in values
    ensures IsPlainKey(e.0)
  {
    var n :| 0 <= n < |values| && values[n] == e;
  }

  /** A key some original line assigns is still assigned after the rewrite. */
  lemma RewriteKeepsAssigned(lines: seq<string>, values: Updates, k: string)
    requires Assigns(lines, k) && IsPlainKey(k) && Lookup(values, k).Some?
    ensures Assigns(Rewrite(lines, values), k)
  {
    var i := AssignsWitness(lines, k);
    RewriteHeadAt(lines, values, i);
    AssignsLine(Rewrite(lines, values), i, k, Lookup(values, k).value);
  }

  /** A key no original line assigns is assigned by its appended line. */
  lemma RewriteAssignsMissing(lines: seq<string>, values: Updates, j: nat)
    requires j < |Missing(lines, values)| && IsPlainKey(Missing(lines, values)[j].0)
    ensures Assigns(Rewrite(lines, values), Missing(lines, values)[j].0)
  {
    var m := Missing(lines, values);
    RewriteTailAt(lines, values, j);
    AssignsLine(Rewrite(lines, values), |Rewrite(lines, values)| - |m| + j, m[j].0, m[j].1);
  }

  /** A line key=value for a plain key makes the text assign that key. */
  lemma AssignsLine(r: seq<string>, i: nat, key: string, value: string)
    requires i < |r| && r[i] == Assignment(key, value) && IsPlainKey(key)
    ensures Assigns(r, key)
  {
    AssignmentReadsBack(key, value);
    AssignsAt(r, i);
  }

  /** After the rewrite the key of the n-th entry is assigned by some line. */
  lemma RewriteAssignsKey(lines: seq<string>, values: Updates, n: nat)
    requires AllPlain(values) && n < |values|
    ensures Assigns(Rewrite(lines, values), values[n].0)
  {
    var k := values[n].0;
    assert IsPlainKey(k);
    LookupFacts(values, k);
    if Assigns(lines, k) {
      RewriteKeepsAssigned(lines, values, k);
    } else {
      var m := Missing(lines, values);
      MissingMembers(lines, values);
      assert values[n] in m;
      var j :| 0 <= j < |m| && m[j] == values[n];
      RewriteAssignsMissing(lines, values, j);
    }
  }

  /** A rewritten line that assigns a key of the dict carries the dict's value. */
  lemma RewriteCarriesValue(lines: seq<string>, values: Updates, i: nat)
    requires AllPlain(values) && DistinctKeys(values)
    requires i < |Rewrite(lines, values)|
    ensures var r := Rewrite(lines, values);
            !IsPassthrough(r[i]) && Lookup(values, KeyOf(r[i])).Some? ==>
              r[i] == Assignment(KeyOf(r[i]), Lookup(values, KeyOf(r[i])).value)
  {
    var r := Rewrite(lines, values);
    var m := Missing(lines, values);
    RewriteSize(lines, values);
    if i < |lines| {
      RewriteHeadAt(lines, values, i);
      if !IsPassthrough(lines[i]) && Lookup(values, KeyOf(lines[i])).Some? {
        var k := KeyOf(lines[i]);
        LookupFacts(values, k);
        AssignmentReadsBack(k, Lookup(values, k).value);
      }
    } else if i < |r| - |m| {
      RewriteMiddleAt(lines, values, i);
    } else {
      var j := i - (|r| - |m|);
      RewriteTailAt(lines, values, j);
      PlainEntry(values, m[j]);
      LookupEntry(values, m[j]);
      AssignmentReadsBack(m[j].0, m[j].1);
    }
  }

  /** After the rewrite every key of the dict is assigned by some line, and
      every line assigning one of those keys carries the dict's value. */
  lemma RewriteAssignsEveryKey(lines: seq<string>, values: Updates)
    requires AllPlain(values) && DistinctKeys(values)
    ensures var r := Rewrite(lines, values);
            forall n :: 0 <= n < |values| ==> Assigns(r, values[n].0)
    ensures var r := Rewrite(lines, values);
            forall i :: 0 <= i < |r| && !IsPassthrough(r[i]) && Lookup(values, KeyOf(r[i])).Some? ==>
              r[i] == Assignment(KeyOf(r[i]), Lookup(values, KeyOf(r[i])).value)
  {
    forall n | 0 <= n < |values| {
      RewriteAssignsKey(lines, values, n);
    }
    forall i | 0 <= i < |Rewrite(lines, values)| {
      RewriteCarriesValue(lines, values, i);
    }
  }

  /** Rewriting with v1 and then with v2 (same keys, same order) rewrites
      each line as v2 alone would. */
  lemma RewriteLineComposes(line: string, v1: Updates, v2: Updates)
    requires SameKeys(v1, v2) && AllPlain(v1)
    ensures RewriteLine(RewriteLine(line, v1), v2) == RewriteLine(line, v2)
  {
    if !IsPassthrough(line) {
      var k := KeyOf(line);
      LookupSameKeys(v1, v2, k);
      if Lookup(v1, k).Some? {
        LookupFacts(v1, k);
        AssignmentReadsBack(k, Lookup(v1, k).value);
      }
    }
  }

  /** A key=value line is never blank. */
  lemma AssignmentNotBlank(key: string, value: string)
    ensures Strip(Assignment(key, value)) != ""
  {
    StripFacts(Assignment(key, value));
    assert Assignment(key, value)[|key|] == '=';
  }

  /** Rewriting with v1 or with v2 (same keys) leaves the same number of lines. */
  lemma RewriteSameLength(lines: seq<string>, v1: Updates, v2: Updates)
    requires SameKeys(v1, v2)
    ensures |Rewrite(lines, v1)| == |Rewrite(lines, v2)|
    ensures |Rewrite(lines, v1)| - |Missing(lines, v1)| == |Rewrite(lines, v2)| - |Missing(lines, v2)|
  {
    MissingSameKeys(lines, v1, v2);
    var p1 := RewriteLines(lines, v1);
    var p2 := RewriteLines(lines, v2);
    if |lines| > 0 {
      var l := lines[|lines| - 1];
      if !IsPassthrough(l) {
        LookupSameKeys(v1, v2, KeyOf(l));
        if Lookup(v1, KeyOf(l)).Some? {
          AssignmentNotBlank(KeyOf(l), Lookup(v1, KeyOf(l)).value);
          AssignmentNotBlank(KeyOf(l), Lookup(v2, KeyOf(l)).value);
        }
      }
      assert Separator(p1) == Separator(p2);
    }
  }

  /** The i-th line of the twice-rewritten text equals the i-th line of the
      text rewritten with v2 alone. */
  lemma ComposeAt(lines: seq<string>, v1: Updates, v2: Updates, i: nat)
    requires SameKeys(v1, v2) && AllPlain(v1) && DistinctKeys(v1)
    requires i < |Rewrite(lines, v1)|
    ensures i < |Rewrite(lines, v2)|
    ensures RewriteLine(Rewrite(lines, v1)[i], v2) == Rewrite(lines, v2)[i]
  {
    RewriteSameLength(lines, v1, v2);
    RewriteSize(lines, v1);
    var once := Rewrite(lines, v1);
    var m1 := Missing(lines, v1);
    var m2 := Missing(lines, v2);
    if i < |lines| {
      RewriteHeadAt(lines, v1, i);
      RewriteHeadAt(lines, v2, i);
      RewriteLineComposes(lines[i], v1, v2);
    } else if i < |once| - |m1| {
      RewriteMiddleAt(lines, v1, i);
      RewriteMiddleAt(lines, v2, i);
    } else {
      var j := i - (|once| - |m1|);
      MissingSameKeys(lines, v1, v2);
      RewriteTailAt(lines, v1, j);
      RewriteTailAt(lines, v2, j);
      PlainEntry(v1, m1[j]);
      LookupEntry(v2, m2[j]);
      RewriteAssignment(m1[j].0, m1[j].1, v2);
    }
  }

  /** A key=value line for a key of the dict is rewritten to carry the
      dict's value. */
  lemma RewriteAssignment(key: string, value: string, values: Updates)
    requires IsPlainKey(key) && Lookup(values, key).Some?
    ensures RewriteLine(Assignment(key, value), values) == Assignment(key, Lookup(values, key).value)
  {
    AssignmentReadsBack(key, value);
  }

  /** Last write wins: rewriting with v1 and then with v2 (same keys in the
      same order) is the same as rewriting with v2 alone. */
  lemma RewriteComposes(lines: seq<string>, v1: Updates, v2: Updates)
    requires SameKeys(v1, v2) && AllPlain(v1) && DistinctKeys(v1)
    ensures Rewrite(Rewrite(lines, v1), v2) == Rewrite(lines, v2)
  {
    var once := Rewrite(lines, v1);
    var twice := Rewrite(once, v2);
    var direct := Rewrite(lines, v2);
    RewriteAssignsEveryKey(lines, v1);
    MissingEmpty(once, v2);
    RewriteAppendsMissing(once, v2);
    assert twice == RewriteLines(once, v2);
    RewriteSameLength(lines, v1, v2);
    forall i | 0 <= i < |once|
      ensures twice[i] == direct[i]
    {
      ComposeAt(lines, v1, v2, i);
    }
  }

  /** Applying the same update twice changes nothing the second time. */
  lemma RewriteIdempotent(lines: seq<string>, values: Updates)
    requires AllPlain(values) && DistinctKeys(values)
    ensures Rewrite(Rewrite(lines, values), values) == Rewrite(lines, values)
  {
    RewriteComposes(lines, values, values);
  }

  lemma RewriteLinesSnoc(lines: seq<string>, line: string, values: Updates)
    ensures RewriteLines(lines + [line], values) == RewriteLines(lines, values) + [RewriteLine(line, values)]
  {
  }

  lemma {:induction false} AssignsSnoc(lines: seq<string>, line: string, key: string)
    ensures Assigns(lines + [line], key) <==> Assigns(lines, key) || LineAssigns(line, key)
  {
    assert (lines + [line])[..|lines|] == lines;
  }

  lemma {:induction false} MissingSnoc(lines: seq<string>, values: Updates, e: (string, string))
    ensures Missing(lines, values + [e]) == Missing(lines, values) + (if Assigns(lines, e.0) then [] else [e])
  {
    if |values| > 0 {
      assert (values + [e])[1..] == values[1..] + [e];
      MissingSnoc(lines, values[1..], e);
    } else {
      assert Missing(lines, [e][1..]) == [];
    }
  }

  lemma AssignmentsSnoc(entries: Updates, e: (string, string))
    ensures Assignments(entries + [e]) == Assignments(entries) + [Assignment(e.0, e.1)]
  {
  }

  function KeysOf(entries: Updates): (ks: seq<string>)
    ensures |ks| == |entries|
  {
    seq(|entries|, j requires 0 <= j < |entries| => entries[j].0)
  }

  /** The for-loop of update_env_vars: each line rewritten in place, and
      the set updated_keys of keys some line assigned. */
  method RewriteEach(lines: seq<string>, values: Updates) returns (newLines: seq<string>, updated: set<string>)
    ensures newLines == RewriteLines(lines, values)
    ensures forall k :: k in updated <==> Lookup(values, k).Some? && Assigns(lines, k)
  {
    updated := {};
    newLines := [];
    var i := 0;
    while i < |lines|
      invariant 0 <= i <= |lines|
      invariant newLines == RewriteLines(lines[..i], values)
      invariant forall k :: k in updated <==> Lookup(values, k).Some? && Assigns(lines[..i], k)
    {
      var line := lines[i];
      assert lines[..i + 1] == lines[..i] + [line];
      RewriteLinesSnoc(lines[..i], line, values);
      forall k {
        AssignsSnoc(lines[..i], line, k);
      }
      if StartsWith(Strip(line), "#") || '=' !in line {
        newLines := newLines + [line];
      } else {
        var name := KeyOf(line);
        match Lookup(values, name)
        case Some(v) =>
          newLines := newLines + [Assignment(name, v)];
          updated := updated + {name};
        case None =>
          newLines := newLines + [line];
      }
      i := i + 1;
    }
    assert lines[..i] == lines;
  }

  /** The list comprehension "missing": the dict's keys, in order, that are
      not in updated_keys. */
  method MissingList(lines: seq<string>, values: Updates, updated: set<string>) returns (missing: seq<string>)
    requires forall k :: k in updated <==> Lookup(values, k).Some? && Assigns(lines, k)
    ensures missing == KeysOf(Missing(lines, values))
  {
    missing := [];
    var n := 0;
    while n < |values|
      invariant 0 <= n <= |values|
      invariant missing == KeysOf(Missing(lines, values[..n]))
    {
      MissingSnoc(lines, values[..n], values[n]);
      assert values[..n + 1] == values[..n] + [values[n]];
      LookupFacts(values, values[n].0);
      if values[n].0 !in updated {
        missing := missing + [values[n].0];
      }
      n := n + 1;
    }
    assert values[..n] == values;
  }

  /** The closing loop of update_env_vars: one key=value line per missing
      key, its value looked up in the dict. */
  method AppendAssignments(head: seq<string>, values: Updates, missing: seq<string>, ghost m: Updates)
    returns (newLines: seq<string>)
    requires DistinctKeys(values)
    requires missing == KeysOf(m)
    requires forall e :: e in m ==> e in values
    ensures newLines == head + Assignments(m)
  {
    newLines := head;
    var j := 0;
    while j < |missing|
      invariant 0 <= j <= |missing|
      invariant newLines == head + Assignments(m[..j])
    {
      assert m[j] in m;
      LookupEntry(values, m[j]);
      assert missing[j] == m[j].0;
      newLines := newLines + [Assignment(missing[j], Lookup(values, missing[j]).value)];
      assert m[..j + 1] == m[..j] + [m[j]];
      AssignmentsSnoc(m[..j], m[j]);
      j := j + 1;
    }
    assert m[..j] == m;
  }

  /** update_env_vars as written: the loop over the lines, the list of
      missing keys, then the separator and the appended key=value lines. */
  method UpdateEnvVars(lines: seq<string>, values: Updates) returns (newLines: seq<string>)
    requires DistinctKeys(values)
    ensures newLines == Rewrite(lines, values)
  {
    var updated;
    newLines, updated := RewriteEach(lines, values);
    var missing := MissingList(lines, values, updated);
    ghost var m := Missing(lines, values);
    MissingMembers(lines, values);
    if |missing| > 0 {
      if |newLines| > 0 && Strip(newLines[|newLines| - 1]) != "" {
        newLines := newLines + [""];
      }
      newLines := AppendAssignments(newLines, values, missing, m);
    }
  }
}
