/** `ls_improved/lsi_itemloader.py`: the parser of the file-description
    sidecar (`_interpret_file_description`) and the trailing-slash
    normalisation of a directory path before a sidecar name is appended. */
module ItemLoader {
  import opened Results
  import opened Strings

  /** The two characters backslash and slash: the header marker, and the key
      of the lines that come before any header. */
  const RootKey: string := "\\/"

  /** A line that names the file the following lines describe. */
  predicate IsHeader(line: string)
  {
    |line| >= 2 && line[..2] == RootKey
  }

  // ---------------------------------------------------------------------
  // The parse, as a fold over the lines
  // ---------------------------------------------------------------------

  /** The loop state of `_interpret_file_description`: the dictionary built
      so far and the current file name. */
  datatype Parse = Parse(dict: map<string, string>, key: string)

  /** One line: a header switches the key; another line is appended to the
      current key's value with a newline, or starts it. */
  function Step(st: Parse, line: string): Parse
  {
    if IsHeader(line) then Parse(st.dict, line[2..])
    else if st.key in st.dict then Parse(st.dict[st.key := st.dict[st.key] + "\n" + line], st.key)
    else Parse(st.dict[st.key := line], st.key)
  }

  /** The state after the lines, starting from an empty dictionary under
      the root key. */
  function StateAfter(lines: seq<string>): Parse
    decreases |lines|
  {
    if |lines| == 0 then Parse(map[], RootKey)
    else Step(StateAfter(lines[..|lines| - 1]), lines[|lines| - 1])
  }

  // ---------------------------------------------------------------------
  // A reference reading: which lines belong to which key
  // ---------------------------------------------------------------------

  /** The key in force after the lines: the rest of the last header, or the
      root key when there is none. */
  function CurrentKey(lines: seq<string>): string
    decreases |lines|
  {
    if |lines| == 0 then RootKey
    else if IsHeader(lines[|lines| - 1]) then lines[|lines| - 1][2..]
    else CurrentKey(lines[..|lines| - 1])
  }

  /** The non-header lines that fall under key `k`, in order. */
  function Body(lines: seq<string>, k: string): seq<string>
    decreases |lines|
  {
    if |lines| == 0 then []
    else
      var init := lines[..|lines| - 1];
      var last := lines[|lines| - 1];
      Body(init, k) + (if !IsHeader(last) && CurrentKey(init) == k then [last] else [])
  }

  /** Key `k` is in `d` exactly when it has body lines, and then maps to
      those lines joined by newlines. */
  predicate Agrees(d: map<string, string>, lines: seq<string>, k: string)
  {
    (k in d <==> |Body(lines, k)| > 0) && (k in d ==> d[k] == Join(Body(lines, k), "\n"))
  }

  /** One more line keeps the dictionary in agreement with the bodies. */
  lemma StepAgrees(init: seq<string>, last: string, k: string)
    requires StateAfter(init).key == CurrentKey(init)
    requires Agrees(StateAfter(init).dict, init, k)
    ensures Agrees(StateAfter(init + [last]).dict, init + [last], k)
  {
    var lines := init + [last];
    assert lines[..|lines| - 1] == init;
    var st, b := StateAfter(init), Body(init, k);
    if !IsHeader(last) && st.key == k {
      assert Body(lines, k) == b + [last];
      AppendAgrees(st, b, last);
    } else {
      assert Body(lines, k) == b;
      KeepAgrees(st, k, b, last);
    }
  }

  /** The line goes to `k`: the value grows by a newline and the line. */
  lemma AppendAgrees(st: Parse, b: seq<string>, last: string)
    requires !IsHeader(last)
    requires (st.key in st.dict <==> |b| > 0) && (st.key in st.dict ==> st.dict[st.key] == Join(b, "\n"))
    ensures var d := Step(st, last).dict;
            st.key in d && d[st.key] == Join(b + [last], "\n")
  {
    JoinSnoc(b, last, "\n");
  }

  /** The line does not go to `k`: its entry is unchanged. */
  lemma KeepAgrees(st: Parse, k: string, b: seq<string>, last: string)
    requires IsHeader(last) || st.key != k
    ensures var d := Step(st, last).dict;
            (k in d <==> k in st.dict) && (k in d ==> d[k] == st.dict[k])
  {
  }

  /** The dictionary the parse builds holds exactly the keys that have
      body lines, each mapped to those lines joined by newlines; the key
      left in force is the last header's. */
  lemma {:induction false} StateAfterIsBody(lines: seq<string>)
    ensures StateAfter(lines).key == CurrentKey(lines)
    ensures forall k :: Agrees(StateAfter(lines).dict, lines, k)
    decreases |lines|
  {
    if |lines| > 0 {
      var init := lines[..|lines| - 1];
      StateAfterIsBody(init);
      assert init + [lines[|lines| - 1]] == lines;
      forall k ensures Agrees(StateAfter(lines).dict, lines, k) {
        StepAgrees(init, lines[|lines| - 1], k);
      }
    }
  }

  /** Without any header, every line is stored under the root key. */
  lemma {:induction false} NoHeaderAllUnderRoot(lines: seq<string>)
    requires |lines| > 0
    requires forall i :: 0 <= i < |lines| ==> !IsHeader(lines[i])
    ensures StateAfter(lines).dict == map[RootKey := Join(lines, "\n")]
  {
    NoHeaderBody(lines);
    StateAfterIsBody(lines);
    var d := StateAfter(lines).dict;
    assert Body(lines, RootKey) == lines;
    assert Agrees(d, lines, RootKey);
    forall k | k in d ensures k == RootKey {
      assert Agrees(d, lines, k);
    }
    assert d.Keys == {RootKey};
  }

  lemma {:induction false} NoHeaderBody(lines: seq<string>)
    requires forall i :: 0 <= i < |lines| ==> !IsHeader(lines[i])
    ensures CurrentKey(lines) == RootKey
    ensures Body(lines, RootKey) == lines
    ensures forall k :: k != RootKey ==> Body(lines, k) == []
    decreases |lines|
  {
    if |lines| > 0 {
      var init := lines[..|lines| - 1];
      NoHeaderBody(init);
      assert init + [lines[|lines| - 1]] == lines;
    }
  }

  /** A header line is never stored: a value holds only lines that are not
      headers. */
  lemma {:induction false} BodyHasNoHeader(lines: seq<string>, k: string)
    ensures forall j :: 0 <= j < |Body(lines, k)| ==> !IsHeader(Body(lines, k)[j])
    decreases |lines|
  {
    if |lines| > 0 {
      BodyHasNoHeader(lines[..|lines| - 1], k);
    }
  }

  // ---------------------------------------------------------------------
  // _interpret_file_description
  // ---------------------------------------------------------------------

  /** `_interpret_file_description`: status 1 and an empty dictionary for
      empty content, status 2 and an empty dictionary for content without a
      newline, otherwise status 0 and the dictionary of the parse. */
  method InterpretFileDescription(description: string) returns (status: nat, dict: map<string, string>)
    ensures description == "" ==> status == 1 && dict == map[]
    ensures status == 2 <==> description != "" && !Contains(description, "\n")
    ensures status == 2 ==> dict == map[]
    ensures description != "" && Contains(description, "\n") ==>
              status == 0 && dict == StateAfter(Split(description, '\n')).dict
  {
    if description == "" {
      return 1, map[];
    }
    var lines := Split(description, '\n');
    SplitOnSingle(description, "\n");
    if |lines| < 2 {
      return 2, map[];
    }
    var fileName := RootKey;
    dict := map[];
    for i := 0 to |lines|
      invariant Parse(dict, fileName) == StateAfter(lines[..i])
    {
      assert lines[..i + 1][..i] == lines[..i];
      var desc := lines[i];
      if |desc| >= 2 && desc[..2] == RootKey {
        fileName := desc[2..];
        continue;
      }
      if fileName in dict {
        dict := dict[fileName := dict[fileName] + "\n" + desc];
      } else {
        dict := dict[fileName := desc];
      }
    }
    assert lines[..|lines|] == lines;
    status := 0;
  }

  // ---------------------------------------------------------------------
  // Directory normalisation
  // ---------------------------------------------------------------------

  /** `dir+'/' if dir[-1]!='/' else dir`; an empty path has no last
      character and raises, which is `None` here. */
  function NormaliseDir(dir: string): (r: Option<string>)
    ensures r.None? <==> dir == ""
    ensures r.Some? ==> |r.value| > 0 && r.value[|r.value| - 1] == '/'
    ensures r.Some? ==> dir <= r.value && |r.value| <= |dir| + 1
  {
    if dir == "" then None
    else if dir[|dir| - 1] != '/' then Some(dir + "/")
    else Some(dir)
  }

  /** A slash is appended exactly when it is missing, so normalising twice
      is normalising once. */
  lemma NormaliseDirIdempotent(dir: string)
    requires dir != ""
    ensures NormaliseDir(dir).value == dir <==> dir[|dir| - 1] == '/'
    ensures NormaliseDir(NormaliseDir(dir).value) == NormaliseDir(dir)
  {
    var r := NormaliseDir(dir).value;
    if dir[|dir| - 1] != '/' {
      assert r[|r| - 1] == '/';
      assert r != dir;
    }
  }

  /** The directory sidecar `_read_description` opens. */
  function DirDescriptionPath(dir: string): (r: Option<string>)
    ensures r.Some? <==> dir != ""
    ensures r.Some? ==> exists n :: NormaliseDir(dir) == Some(n) && r.value == n + ".description.lsi"
  {
    match NormaliseDir(dir)
    case None => None
    case Some(n) => Some(n + ".description.lsi")
  }
}
