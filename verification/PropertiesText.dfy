/** Property lists: the text that store writes and load reads. */
module PropertiesText {

  /** The white space of the C locale. */
  predicate IsSpace(c: char) {
    c as int == 32 || 9 <= c as int <= 13
  }

  /** Position of the first c in s, |s| when there is none. */
  function IndexOf(s: string, c: char): (k: nat)
    ensures k <= |s| && (k < |s| ==> s[k] == c) && c !in s[..k]
  {
    if s == "" || s[0] == c then 0
    else
      var k := IndexOf(s[1..], c);
      assert s[..k + 1] == [s[0]] + s[1..][..k];
      k + 1
  }

  function SkipSpace(s: string): string {
    if s != "" && IsSpace(s[0]) then SkipSpace(s[1..]) else s
  }

  /** The leading characters that are not white space. */
  function Token(s: string): string {
    if s == "" || IsSpace(s[0]) then "" else [s[0]] + Token(s[1..])
  }

  function DropBlanks(s: string): string {
    if s != "" && s[0] == ' ' then DropBlanks(s[1..]) else s
  }

  predicate IsComment(line: string) {
    line != "" && (line[0] == '#' || line[0] == '!' || (line[0] == '/' && |line| > 1 && line[1] == '/'))
  }

  /** What one line does: nothing, an assignment, or an out-of-range exception, which the
      exception specification of load does not admit and which therefore ends the program. */
  datatype Effect = Skip | Assign(key: string, value: string) | OutOfRange

  function ParseLine(line: string): Effect {
    if line == "" || IsComment(line) then Skip
    else
      var eq := IndexOf(line, '=');
      if eq == |line| then Skip
      else
        var key := Token(SkipSpace(line[..eq]));
        var semi := eq + IndexOf(line[eq..], ';');
        if semi == |line| then Skip
        else
          var value := DropBlanks(line[eq + 1..semi]);
          if value == "" then OutOfRange else Assign(key, value)
  }

  /** The map after a load, or at the moment the program ended, when no caller sees it any more. */
  datatype Outcome = Loaded(entries: map<string, string>) | Terminated(entries: map<string, string>)

  function Apply(line: string, m: map<string, string>): Outcome {
    match ParseLine(line)
    case Skip => Loaded(m)
    case Assign(k, v) => Loaded(m[k := v])
    case OutOfRange => Terminated(m)
  }

  lemma SkipSpaceShrinks(s: string)
    ensures |SkipSpace(s)| <= |s|
  {
  }

  /** Loading the rest of a text. At the end of the text the last line is still in the line
      buffer and is treated once more. */
  function LoadFrom(text: string, line: string, m: map<string, string>): Outcome
    decreases |text|
  {
    SkipSpaceShrinks(text);
    var rest := SkipSpace(text);
    if rest == "" then Apply(line, m)
    else
      var nl := IndexOf(rest, '\n');
      var next := Apply(rest[..nl], m);
      if next.Terminated? || nl == |rest| then next
      else LoadFrom(rest[nl + 1..], rest[..nl], next.entries)
  }

  function LoadText(text: string, m: map<string, string>): Outcome {
    LoadFrom(text, "", m)
  }

  function EntryLine(key: string, value: string): string {
    key + "=" + value + ";"
  }

  /** Entries without a value are not printed. */
  function EntryText(key: string, value: string): string {
    if value == "" then "" else EntryLine(key, value) + "\n"
  }

  predicate Known(keys: seq<string>, m: map<string, string>) {
    forall i :: 0 <= i < |keys| ==> keys[i] in m
  }

  function Printed(m: map<string, string>, keys: seq<string>): string
    requires Known(keys, m)
  {
    if keys == [] then "" else EntryText(keys[0], m[keys[0]]) + Printed(m, keys[1..])
  }

  function Stored(header: string, m: map<string, string>, keys: seq<string>): string
    requires Known(keys, m)
  {
    "# " + header + "\n" + Printed(m, keys)
  }

  /** The keys of m in some order. */
  ghost predicate Enumerates(keys: seq<string>, m: map<string, string>) {
    Known(keys, m) && forall k :: k in m ==> k in keys
  }

  lemma Regroup(a: string, b: string, c: string)
    ensures a + (b + c) == (a + b) + c
  {
  }

  lemma {:induction false} PrintedAppend(m: map<string, string>, keys: seq<string>, k: string)
    requires Known(keys, m) && k in m
    ensures Printed(m, keys + [k]) == Printed(m, keys) + EntryText(k, m[k])
  {
    var longer := keys + [k];
    if keys == [] {
      assert longer[1..] == [];
    } else {
      PrintedAppend(m, keys[1..], k);
      assert longer[0] == keys[0] && longer[1..] == keys[1..] + [k];
      Regroup(EntryText(keys[0], m[keys[0]]), Printed(m, keys[1..]), EntryText(k, m[k]));
    }
  }

  class Properties {
    var entries: map<string, string>

    constructor ()
      ensures entries == map[]
    {
      entries := map[];
    }

    /** ok is false when an out-of-range exception ended the program: load never returns then. */
    method Load(text: string) returns (ok: bool)
      modifies this
      ensures LoadText(text, old(entries)) == if ok then Loaded(entries) else Terminated(entries)
    {
      var rest, line, eof := text, "", false;
      while !eof
        invariant !eof ==> LoadFrom(rest, line, entries) == LoadText(text, old(entries))
        invariant eof ==> Loaded(entries) == LoadText(text, old(entries))
        decreases !eof, |rest|
      {
        SkipSpaceShrinks(rest);
        rest := SkipSpace(rest);
        if rest == "" {
          eof := true;
        } else {
          var nl := IndexOf(rest, '\n');
          line := rest[..nl];
          if nl == |rest| {
            eof := true;
          } else {
            rest := rest[nl + 1..];
          }
        }
        match ParseLine(line) {
          case Skip =>
          case Assign(k, v) =>
            entries := entries[k := v];
          case OutOfRange =>
            return false;
        }
      }
      return true;
    }

    /** The entries that have a value, each key once, in some order. */
    method Print() returns (text: string, ghost order: seq<string>)
      ensures Enumerates(order, entries) && |order| == |entries|
      ensures text == Printed(entries, order)
    {
      text, order := "", [];
      var todo := entries.Keys;
      while todo != {}
        invariant todo <= entries.Keys && |order| + |todo| == |entries|
        invariant forall k :: k in order <==> k in entries && k !in todo
        invariant text == Printed(entries, order)
        decreases |todo|
      {
        var k :| k in todo;
        PrintedAppend(entries, order, k);
        text := text + EntryText(k, entries[k]);
        order := order + [k];
        todo := todo - {k};
      }
    }

    method Store(header: string) returns (text: string, ghost order: seq<string>)
      ensures Enumerates(order, entries) && text == Stored(header, entries, order)
    {
      var body;
      body, order := Print();
      text := "# " + header + "\n" + body;
    }
  }

  // Which entries survive

  predicate GoodKey(k: string) {
    '=' !in k && (forall i :: 0 <= i < |k| ==> !IsSpace(k[i])) && !IsComment(k)
  }

  predicate GoodValue(v: string) {
    ';' !in v && '\n' !in v && v != "" && v[0] != ' '
  }

  ghost predicate AllGood(m: map<string, string>) {
    forall k :: k in m ==> GoodKey(k) && GoodValue(m[k])
  }

  function WithValue(m: map<string, string>): map<string, string> {
    map k | k in m && m[k] != "" :: m[k]
  }

  lemma {:induction false} IndexOfFirst(a: string, c: char, b: string)
    requires c !in a
    ensures IndexOf(a + [c] + b, c) == |a|
  {
    var s := a + [c] + b;
    assert s[|a|] == c && s[..|a|] == a;
  }

  lemma {:induction false} TokenAll(s: string)
    requires forall i :: 0 <= i < |s| ==> !IsSpace(s[i])
    ensures Token(s) == s && SkipSpace(s) == s
  {
    if s != "" {
      TokenAll(s[1..]);
    }
  }

  /** Where the first '=' and the ';' after it are in an entry's line. */
  lemma EntryCuts(k: string, v: string)
    requires GoodKey(k) && GoodValue(v)
    ensures var line := EntryLine(k, v);
      && IndexOf(line, '=') == |k| < |line| && line[..|k|] == k
      && IndexOf(line[|k|..], ';') == 1 + |v|
      && line[|k| + 1..|k| + 1 + |v|] == v
  {
    var line := EntryLine(k, v);
    assert IndexOf(line, '=') == |k| by {
      assert line == k + ['='] + (v + ";");
      IndexOfFirst(k, '=', v + ";");
    }
    assert IndexOf(line[|k|..], ';') == 1 + |v| by {
      assert line[|k|..] == ("=" + v) + [';'] + "";
      IndexOfFirst("=" + v, ';', "");
    }
  }

  lemma EntryIsVisible(k: string, v: string)
    requires GoodKey(k)
    ensures !IsComment(EntryLine(k, v)) && !IsSpace(EntryLine(k, v)[0])
  {
    var line := EntryLine(k, v);
    if k != "" {
      assert line[0] == k[0];
      assert |k| > 1 ==> line[1] == k[1];
    }
  }

  /** A good entry is read back from its line. */
  lemma EntryParses(k: string, v: string)
    requires GoodKey(k) && GoodValue(v)
    ensures ParseLine(EntryLine(k, v)) == Assign(k, v)
  {
    EntryCuts(k, v);
    EntryIsVisible(k, v);
    TokenAll(k);
  }

  /** Loading a text whose first line starts with a visible character. */
  lemma LoadLine(line: string, rest: string, stale: string, m: map<string, string>)
    requires '\n' !in line && line != "" && !IsSpace(line[0])
    ensures LoadFrom(line + "\n" + rest, stale, m)
         == if Apply(line, m).Terminated? then Apply(line, m) else LoadFrom(rest, line, Apply(line, m).entries)
  {
    var text := line + ['\n'] + rest;
    assert text[0] == line[0];
    IndexOfFirst(line, '\n', rest);
    assert text[..|line|] == line && text[|line| + 1..] == rest;
  }

  /** The map after the printed entries have been read on top of m. */
  function Overlay(entries: map<string, string>, keys: seq<string>, m: map<string, string>): map<string, string>
    requires Known(keys, entries)
  {
    if keys == [] then m
    else
      var v := entries[keys[0]];
      Overlay(entries, keys[1..], if v == "" then m else m[keys[0] := v])
  }

  lemma {:induction false} OverlayIs(entries: map<string, string>, keys: seq<string>, m: map<string, string>)
    requires Known(keys, entries)
    ensures var r := Overlay(entries, keys, m);
      && (forall k :: k in r <==> k in m || (k in keys && entries[k] != ""))
      && (forall k :: k in r ==> r[k] == if k in keys && entries[k] != "" then entries[k] else m[k])
  {
    if keys != [] {
      var v := entries[keys[0]];
      var next := if v == "" then m else m[keys[0] := v];
      OverlayIs(entries, keys[1..], next);
      assert forall k :: k in keys <==> k == keys[0] || k in keys[1..];
    }
  }

  /** The line buffer holds nothing that a second treatment would change. */
  predicate Settled(line: string, m: map<string, string>) {
    Apply(line, m) == Loaded(m)
  }

  lemma EntrySettles(k: string, v: string, m: map<string, string>)
    requires GoodKey(k) && GoodValue(v)
    ensures Settled(EntryLine(k, v), m[k := v])
  {
    EntryParses(k, v);
    assert m[k := v][k := v] == m[k := v];
  }

  lemma LoadEntry(k: string, v: string, rest: string, line: string, m: map<string, string>)
    requires GoodKey(k) && GoodValue(v)
    ensures LoadFrom(EntryText(k, v) + rest, line, m) == LoadFrom(rest, EntryLine(k, v), m[k := v])
  {
    EntryParses(k, v);
    EntryIsVisible(k, v);
    assert '\n' !in EntryLine(k, v);
    LoadLine(EntryLine(k, v), rest, line, m);
  }

  lemma {:induction false} LoadPrinted(entries: map<string, string>, keys: seq<string>, line: string, m: map<string, string>)
    requires Known(keys, entries)
    requires forall k :: k in keys && entries[k] != "" ==> GoodKey(k) && GoodValue(entries[k])
    requires Settled(line, m)
    ensures LoadFrom(Printed(entries, keys), line, m) == Loaded(Overlay(entries, keys, m))
  {
    if keys != [] {
      var k, v, tail := keys[0], entries[keys[0]], keys[1..];
      if v == "" {
        LoadPrinted(entries, tail, line, m);
        assert Printed(entries, keys) == Printed(entries, tail);
      } else {
        EntrySettles(k, v, m);
        LoadPrinted(entries, tail, EntryLine(k, v), m[k := v]);
        LoadEntry(k, v, Printed(entries, tail), line, m);
      }
    }
  }

  lemma OverlayAll(entries: map<string, string>, keys: seq<string>, m: map<string, string>)
    requires Enumerates(keys, entries)
    ensures Overlay(entries, keys, m) == m + WithValue(entries)
  {
    OverlayIs(entries, keys, m);
  }

  /** Loading a stored text adds to any map the entries that have a value. */
  lemma LoadStored(entries: map<string, string>, keys: seq<string>, header: string, m: map<string, string>)
    requires Enumerates(keys, entries) && '\n' !in header && AllGood(WithValue(entries))
    ensures LoadText(Stored(header, entries, keys), m) == Loaded(m + WithValue(entries))
  {
    var comment := "# " + header;
    forall k | k in keys && entries[k] != "" ensures GoodKey(k) && GoodValue(entries[k]) {
      assert k in WithValue(entries);
    }
    assert ParseLine(comment) == Skip;
    LoadLine(comment, Printed(entries, keys), "", m);
    LoadPrinted(entries, keys, comment, m);
    OverlayAll(entries, keys, m);
  }

  // Everything that load puts in the map is good

  lemma {:induction false} TokenIsPrefix(s: string)
    ensures Token(s) <= s && forall i :: 0 <= i < |Token(s)| ==> !IsSpace(Token(s)[i])
  {
    if s != "" && !IsSpace(s[0]) {
      TokenIsPrefix(s[1..]);
    }
  }

  lemma {:induction false} DropBlanksIsSuffix(s: string)
    ensures var d := DropBlanks(s); |d| <= |s| && d == s[|s| - |d|..] && (d != "" ==> d[0] != ' ')
  {
    if s != "" && s[0] == ' ' {
      DropBlanksIsSuffix(s[1..]);
    }
  }

  ghost predicate CleanLine(line: string) {
    '\n' !in line && (line != "" ==> !IsSpace(line[0]))
  }

  lemma KeyIsGood(line: string, eq: nat)
    requires (line != "" ==> !IsSpace(line[0])) && !IsComment(line) && eq <= |line| && '=' !in line[..eq]
    ensures GoodKey(Token(SkipSpace(line[..eq])))
  {
    var before := line[..eq];
    assert before != "" ==> before[0] == line[0];
    assert SkipSpace(before) == before;
    TokenIsPrefix(before);
    var key := Token(before);
    assert key == line[..|key|];
    assert forall c :: c in key ==> c in before;
  }

  lemma ValueIsGood(line: string, eq: nat)
    requires CleanLine(line) && eq < |line| && line[eq] == '='
    ensures var semi := eq + IndexOf(line[eq..], ';');
      semi < |line| ==> semi > eq && var v := DropBlanks(line[eq + 1..semi]); v == "" || GoodValue(v)
  {
    var rest := line[eq..];
    var semi := IndexOf(rest, ';');
    if semi < |rest| {
      assert rest[0] == '=';
      var between := line[eq + 1..eq + semi];
      assert between == rest[..semi][1..];
      DropBlanksIsSuffix(between);
      var v := DropBlanks(between);
      assert forall c :: c in v ==> c in between;
      assert forall c :: c in between ==> c in rest[..semi] && c in line;
    }
  }

  lemma ParsedIsGood(line: string)
    requires CleanLine(line) && ParseLine(line).Assign?
    ensures GoodKey(ParseLine(line).key) && GoodValue(ParseLine(line).value)
  {
    KeyIsGood(line, IndexOf(line, '='));
    ValueIsGood(line, IndexOf(line, '='));
  }

  lemma ApplyIsGood(line: string, m: map<string, string>)
    requires CleanLine(line) && AllGood(m)
    ensures AllGood(Apply(line, m).entries)
  {
    if ParseLine(line).Assign? {
      ParsedIsGood(line);
    }
  }

  lemma {:induction false} LoadedIsGood(text: string, line: string, m: map<string, string>)
    requires CleanLine(line) && AllGood(m)
    ensures AllGood(LoadFrom(text, line, m).entries)
    decreases |text|
  {
    SkipSpaceShrinks(text);
    var rest := SkipSpace(text);
    StartsVisible(text);
    var nl := IndexOf(rest, '\n');
    var l := if rest == "" then line else rest[..nl];
    ApplyIsGood(l, m);
    if rest != "" && nl < |rest| && Apply(l, m).Loaded? {
      LoadedIsGood(rest[nl + 1..], l, Apply(l, m).entries);
    }
  }

  lemma {:induction false} StartsVisible(s: string)
    ensures SkipSpace(s) != "" ==> !IsSpace(SkipSpace(s)[0])
  {
    if s != "" && IsSpace(s[0]) {
      StartsVisible(s[1..]);
    }
  }

  // The laws

  /** Storing and loading gives a map back exactly when all its keys and values are good; the
      entries with an empty value are dropped, and the others survive exactly when good. */
  lemma RoundTripExactly(m: map<string, string>, keys: seq<string>, header: string)
    requires Enumerates(keys, m) && '\n' !in header
    ensures LoadText(Stored(header, m, keys), map[]) == Loaded(m) <==> AllGood(m)
    ensures LoadText(Stored(header, m, keys), map[]) == Loaded(WithValue(m)) <==> AllGood(WithValue(m))
  {
    LoadedIsGood(Stored(header, m, keys), "", map[]);
    if AllGood(WithValue(m)) {
      LoadStored(m, keys, header, map[]);
      assert map[] + WithValue(m) == WithValue(m);
    }
    if AllGood(m) {
      assert WithValue(m) == m;
    }
  }

  /** Whatever text was loaded, the map survives being stored and loaded again. */
  lemma LoadStoreLoad(text: string, keys: seq<string>, header: string)
    requires LoadText(text, map[]).Loaded? && Enumerates(keys, LoadText(text, map[]).entries) && '\n' !in header
    ensures var m := LoadText(text, map[]); LoadText(Stored(header, m.entries, keys), map[]) == m
  {
    LoadedIsGood(text, "", map[]);
    RoundTripExactly(LoadText(text, map[]).entries, keys, header);
  }

  // ----- any text: what its lines say -----

  predicate AllBlank(s: string) {
    forall i :: 0 <= i < |s| ==> s[i] == ' '
  }

  /** A line that sets key to value: a good key, perhaps white space and more text before '=',
      perhaps blanks before the value, which ends at the first ';'. */
  ghost predicate IsEntry(line: string, key: string, gap: string, blanks: string, value: string, rest: string) {
    && line == key + gap + "=" + blanks + value + ";" + rest
    && GoodKey(key) && '=' !in gap && (gap == "" || (key != "" && IsSpace(gap[0])))
    && AllBlank(blanks) && ';' !in value && value != "" && value[0] != ' '
  }

  /** A line with a value of blanks only. */
  ghost predicate IsBlankEntry(line: string, text: string, blanks: string, rest: string) {
    line == text + "=" + blanks + ";" + rest && '=' !in text && AllBlank(blanks)
  }

  lemma {:induction false} TokenOf(key: string, gap: string)
    requires (forall i :: 0 <= i < |key| ==> !IsSpace(key[i])) && (gap == "" || IsSpace(gap[0]))
    ensures Token(key + gap) == key
  {
    if key == "" {
      assert key + gap == gap;
    } else {
      assert (key + gap)[1..] == key[1..] + gap;
      TokenOf(key[1..], gap);
    }
  }

  lemma {:induction false} BlanksDrop(blanks: string, value: string)
    requires AllBlank(blanks) && (value == "" || value[0] != ' ')
    ensures DropBlanks(blanks + value) == value
  {
    if blanks == "" {
      assert blanks + value == value;
    } else {
      assert (blanks + value)[1..] == blanks[1..] + value;
      BlanksDrop(blanks[1..], value);
    }
  }

  /** Where the value of a line ends: at the first ';' after the first '='. */
  lemma CutsOf(line: string, before: string, between: string, rest: string)
    requires line == before + "=" + between + ";" + rest && '=' !in before && ';' !in between
    ensures IndexOf(line, '=') == |before| < |line| && line[..|before|] == before
    ensures IndexOf(line[|before|..], ';') == 1 + |between| < |line[|before|..]|
    ensures line[|before| + 1..|before| + 1 + |between|] == between
  {
    assert IndexOf(line, '=') == |before| by {
      assert line == before + ['='] + (between + ";" + rest);
      IndexOfFirst(before, '=', between + ";" + rest);
    }
    assert IndexOf(line[|before|..], ';') == 1 + |between| by {
      assert line[|before|..] == ("=" + between) + [';'] + rest;
      IndexOfFirst("=" + between, ';', rest);
    }
  }

  lemma ParseAt(line: string, eq: nat, k: nat)
    requires !IsComment(line) && IndexOf(line, '=') == eq < |line| && IndexOf(line[eq..], ';') == k < |line[eq..]| && k >= 1
    ensures var value := DropBlanks(line[eq + 1..eq + k]);
      ParseLine(line) == if value == "" then OutOfRange else Assign(Token(SkipSpace(line[..eq])), value)
  {
  }

  lemma EntryVisible(line: string, key: string, gap: string, blanks: string, value: string, rest: string)
    requires IsEntry(line, key, gap, blanks, value, rest)
    ensures !IsComment(line) && line != "" && !IsSpace(line[0])
  {
    if key != "" {
      assert line[0] == key[0];
      if |key| > 1 {
        assert line[1] == key[1];
      } else if gap != "" {
        assert line[1] == gap[0];
      } else {
        assert line[1] == '=';
      }
    } else {
      assert line[0] == '=';
    }
  }

  /** A line of that form sets exactly that key to that value. */
  lemma EntryAssigns(line: string, key: string, gap: string, blanks: string, value: string, rest: string)
    requires IsEntry(line, key, gap, blanks, value, rest)
    ensures ParseLine(line) == Assign(key, value)
  {
    EntryVisible(line, key, gap, blanks, value, rest);
    Regroup5(key, gap, blanks, value, rest);
    ParseParts(line, key + gap, blanks + value, rest);
    KeyRead(key, gap);
    BlanksDrop(blanks, value);
  }

  lemma Regroup5(key: string, gap: string, blanks: string, value: string, rest: string)
    ensures key + gap + "=" + blanks + value + ";" + rest == (key + gap) + "=" + (blanks + value) + ";" + rest
  {
  }

  lemma KeyRead(key: string, gap: string)
    requires GoodKey(key) && (gap == "" || (key != "" && IsSpace(gap[0])))
    ensures Token(SkipSpace(key + gap)) == key
  {
    TokenOf(key, gap);
    assert key + gap != "" ==> (key + gap)[0] == key[0];
  }

  /** What a line with a pair does. */
  lemma ParseParts(line: string, before: string, between: string, rest: string)
    requires line == before + "=" + between + ";" + rest && '=' !in before && ';' !in between && !IsComment(line)
    ensures ParseLine(line) == if DropBlanks(between) == "" then OutOfRange else Assign(Token(SkipSpace(before)), DropBlanks(between))
  {
    CutsOf(line, before, between, rest);
    ParseAt(line, |before|, 1 + |between|);
  }

  /** A blank value ends the program. */
  lemma BlankEnds(line: string, text: string, blanks: string, rest: string)
    requires IsBlankEntry(line, text, blanks, rest) && !IsComment(line)
    ensures ParseLine(line) == OutOfRange
  {
    ParseParts(line, text, blanks, rest);
    BlanksDrop(blanks, "");
    assert blanks + "" == blanks;
  }

  /** An '=' with a ';' after it. */
  ghost predicate HasPair(line: string) {
    exists i, j :: 0 <= i < j < |line| && line[i] == '=' && line[j] == ';'
  }

  lemma CommentExactly(line: string)
    ensures IsComment(line) <==> "#" <= line || "!" <= line || "//" <= line
  {
    if |line| >= 2 {
      assert line[..2] == [line[0], line[1]];
    }
    if |line| >= 1 {
      assert line[..1] == [line[0]];
    }
  }

  /** A line leaves the map alone exactly when it is empty, begins with one of the three comment
      signs, or has no '=' followed by a ';'. */
  lemma SkipExactly(line: string)
    ensures ParseLine(line) == Skip <==> line == "" || "#" <= line || "!" <= line || "//" <= line || !HasPair(line)
  {
    CommentExactly(line);
    var eq := IndexOf(line, '=');
    if eq < |line| {
      var semi := IndexOf(line[eq..], ';');
      if semi < |line[eq..]| {
        assert line[eq + semi] == line[eq..][semi];
        assert HasPair(line);
      }
    }
  }

  lemma {:induction false} DroppedAreBlank(s: string)
    ensures |DropBlanks(s)| <= |s| && AllBlank(s[..|s| - |DropBlanks(s)|])
  {
    DropBlanksIsSuffix(s);
    if s != "" && s[0] == ' ' {
      DroppedAreBlank(s[1..]);
      var dropped := s[1..][..|s| - 1 - |DropBlanks(s)|];
      forall i | 1 <= i < |s| - |DropBlanks(s)| ensures s[i] == ' ' {
        assert s[i] == dropped[i - 1];
      }
    }
  }

  lemma {:induction false} TokenStops(s: string)
    ensures Token(s) <= s && (|Token(s)| < |s| ==> IsSpace(s[|Token(s)|]))
  {
    if s != "" && !IsSpace(s[0]) {
      TokenStops(s[1..]);
    }
  }

  lemma SemiAt(line: string, eq: nat, k: nat)
    requires eq < |line| && line[eq] == '=' && IndexOf(line[eq..], ';') == k < |line[eq..]|
    ensures k >= 1 && line[eq + k] == ';'
  {
    var tail := line[eq..];
    assert tail[0] == '=' && tail[k] == ';';
  }

  lemma Rejoin(line: string, eq: nat, semi: nat)
    requires eq < semi < |line| && line[eq] == '=' && line[semi] == ';'
    ensures line == line[..eq] + "=" + line[eq + 1..semi] + ";" + line[semi + 1..]
  {
    assert line == line[..eq] + [line[eq]] + line[eq + 1..];
    assert line[eq + 1..] == line[eq + 1..semi] + [line[semi]] + line[semi + 1..];
  }

  /** And every line that assigns or ends the program is of one of the two forms. */
  lemma ParsedForms(line: string)
    requires line != "" && !IsSpace(line[0]) && ParseLine(line) != Skip
    ensures ParseLine(line).Assign? ==>
      exists gap, blanks, rest :: IsEntry(line, ParseLine(line).key, gap, blanks, ParseLine(line).value, rest)
    ensures ParseLine(line).OutOfRange? ==> exists text, blanks, rest :: IsBlankEntry(line, text, blanks, rest)
  {
    var eq := IndexOf(line, '=');
    var semi := eq + IndexOf(line[eq..], ';');
    SemiAt(line, eq, semi - eq);
    Rejoin(line, eq, semi);
    var before, between, rest := line[..eq], line[eq + 1..semi], line[semi + 1..];
    ParseAt(line, eq, semi - eq);
    var value := DropBlanks(between);
    var blanks := BlanksOf(between);
    if value == "" {
      assert IsBlankEntry(line, before, between, rest);
    } else {
      KeyParts(line, eq);
      ValueHasNoEnd(line, eq);
      Reassemble(line, before, Token(before), between, blanks, value, rest);
    }
  }

  lemma BlanksOf(between: string) returns (blanks: string)
    ensures AllBlank(blanks) && between == blanks + DropBlanks(between)
  {
    DropBlanksIsSuffix(between);
    DroppedAreBlank(between);
    blanks := between[..|between| - |DropBlanks(between)|];
  }

  lemma Reassemble(line: string, before: string, key: string, between: string, blanks: string, value: string, rest: string)
    requires line == before + "=" + between + ";" + rest && between == blanks + value && key <= before
    requires GoodKey(key) && '=' !in before[|key|..] && (before[|key|..] == "" || (key != "" && IsSpace(before[|key|])))
    requires AllBlank(blanks) && ';' !in value && value != "" && value[0] != ' '
    ensures exists gap, blanks', rest' :: IsEntry(line, key, gap, blanks', value, rest')
  {
    var gap := before[|key|..];
    assert before == key + gap;
    assert line == key + gap + "=" + blanks + value + ";" + rest;
    assert IsEntry(line, key, gap, blanks, value, rest);
  }

  lemma KeyParts(line: string, eq: nat)
    requires line != "" && !IsSpace(line[0]) && !IsComment(line) && eq < |line| && line[eq] == '=' && '=' !in line[..eq]
    ensures var before := line[..eq]; var key := Token(before);
      && SkipSpace(before) == before && key <= before && GoodKey(key) && '=' !in before[|key|..]
      && (before[|key|..] == "" || (key != "" && IsSpace(before[|key|])))
  {
    var before := line[..eq];
    assert SkipSpace(before) == before by {
      assert before != "" ==> before[0] == line[0];
    }
    KeyIsGood(line, eq);
    TokenStops(before);
    SuffixLacks(before, '=', |Token(before)|);
  }

  lemma SuffixLacks(s: string, c: char, n: nat)
    requires c !in s && n <= |s|
    ensures c !in s[n..]
  {
  }

  lemma ValueHasNoEnd(line: string, eq: nat)
    requires eq < |line| && line[eq] == '=' && IndexOf(line[eq..], ';') < |line[eq..]|
    ensures var semi := eq + IndexOf(line[eq..], ';'); semi > eq && var v := DropBlanks(line[eq + 1..semi]);
      ';' !in v && (v != "" ==> v[0] != ' ')
  {
    var rest := line[eq..];
    var semi := IndexOf(rest, ';');
    assert rest[0] == '=';
    var between := line[eq + 1..eq + semi];
    assert between == rest[..semi][1..];
    DropBlanksIsSuffix(between);
    assert forall c :: c in DropBlanks(between) ==> c in between;
    assert forall c :: c in between ==> c in rest[..semi];
  }

  /** The lines of a text, cut at the newlines. */
  function SplitLines(text: string): seq<string>
    decreases |text|
  {
    var nl := IndexOf(text, '\n');
    if nl == |text| then [text] else [text[..nl]] + SplitLines(text[nl + 1..])
  }

  /** Each line in turn, its leading white space left out. */
  function ByLines(lines: seq<string>, m: map<string, string>): Outcome {
    if lines == [] then Loaded(m)
    else
      var o := Apply(SkipSpace(lines[0]), m);
      if o.Terminated? then o else ByLines(lines[1..], o.entries)
  }

  lemma ApplySettles(line: string, m: map<string, string>)
    requires Apply(line, m).Loaded?
    ensures Settled(line, Apply(line, m).entries)
  {
    match ParseLine(line)
    case Assign(k, v) => assert m[k := v][k := v] == m[k := v];
    case _ =>
  }

  /** White space at the front of a text is of no account, newlines included. */
  lemma {:induction false} SpaceIsNoLine(text: string, m: map<string, string>)
    ensures ByLines(SplitLines(text), m) == ByLines(SplitLines(SkipSpace(text)), m)
  {
    if text != "" && IsSpace(text[0]) {
      SpaceIsNoLine(text[1..], m);
      if text[0] == '\n' {
        NewlineInFront(text, m);
      } else {
        BlankInFront(text);
        var ls, ls' := SplitLines(text), SplitLines(text[1..]);
        assert SkipSpace(ls[0]) == SkipSpace(ls'[0]) by {
          assert ls[0][1..] == ls'[0];
        }
      }
    }
  }

  lemma NewlineInFront(text: string, m: map<string, string>)
    requires text != "" && text[0] == '\n'
    ensures ByLines(SplitLines(text), m) == ByLines(SplitLines(text[1..]), m)
  {
    var ls := SplitLines(text[1..]);
    assert IndexOf(text, '\n') == 0 && text[..0] == "";
    assert SplitLines(text) == [""] + ls;
    assert ([""] + ls)[1..] == ls;
  }

  lemma BlankInFront(text: string)
    requires text != "" && text[0] != '\n'
    ensures var ls, ls' := SplitLines(text), SplitLines(text[1..]);
      ls != [] && ls' != [] && ls[0] == [text[0]] + ls'[0] && ls[1..] == ls'[1..]
  {
    var t := text[1..];
    var nl := IndexOf(t, '\n');
    assert IndexOf(text, '\n') == nl + 1;
    assert text[..nl + 1] == [text[0]] + t[..nl];
    if nl < |t| {
      assert text[nl + 2..] == t[nl + 1..];
    }
  }

  lemma {:induction false} LoadFromLines(text: string, line: string, m: map<string, string>)
    requires Settled(line, m)
    ensures LoadFrom(text, line, m) == ByLines(SplitLines(text), m)
    decreases |text|
  {
    SpaceIsNoLine(text, m);
    SkipSpaceShrinks(text);
    StartsVisible(text);
    var rest := SkipSpace(text);
    if rest != "" {
      var nl := IndexOf(rest, '\n');
      var l := rest[..nl];
      assert l[0] == rest[0] && SkipSpace(l) == l;
      assert rest[..|rest|] == rest;
      var next := Apply(l, m);
      if next.Loaded? && nl < |rest| {
        ApplySettles(l, m);
        LoadFromLines(rest[nl + 1..], l, next.entries);
        assert ([l] + SplitLines(rest[nl + 1..]))[1..] == SplitLines(rest[nl + 1..]);
      }
    }
  }

  /** A text does what its lines do in turn. */
  lemma LoadByLines(text: string, m: map<string, string>)
    ensures LoadText(text, m) == ByLines(SplitLines(text), m)
  {
    LoadFromLines(text, "", m);
  }
}
