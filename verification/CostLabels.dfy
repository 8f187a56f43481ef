/** internal/telemetry/region_pusher.go, serializeCALs and deserializeCals: a
    list of cost attribution labels as a map key, and back. */
module CostLabels {
  import opened Common

  datatype Label = Label(name: string, value: string)

  const MISSING := "__MISSING__"

  // ---- Sorting by name ----

  /** strings.Compare(a, b) <= 0. */
  predicate Leq(a: string, b: string) {
    a == [] || (b != [] && (a[0] < b[0] || (a[0] == b[0] && Leq(a[1..], b[1..]))))
  }

  lemma {:induction false} LeqTotal(a: string, b: string)
    ensures Leq(a, b) || Leq(b, a)
    ensures Leq(a, b) && Leq(b, a) ==> a == b
  {
    if a != [] && b != [] && a[0] == b[0] {
      LeqTotal(a[1..], b[1..]);
      assert a == [a[0]] + a[1..] && b == [b[0]] + b[1..];
    }
  }

  lemma {:induction false} LeqTransitive(a: string, b: string, c: string)
    requires Leq(a, b) && Leq(b, c)
    ensures Leq(a, c)
  {
    if a != [] && a[0] == b[0] == c[0] {
      LeqTransitive(a[1..], b[1..], c[1..]);
    }
  }

  predicate SortedByName(s: seq<Label>) {
    forall i, j :: 0 <= i < j < |s| ==> Leq(s[i].name, s[j].name)
  }

  predicate DistinctNames(s: seq<Label>) {
    forall i, j :: 0 <= i < j < |s| ==> s[i].name != s[j].name
  }

  lemma SameHead(s: seq<Label>, t: seq<Label>)
    requires s != [] && multiset(s) == multiset(t) && SortedByName(s) && SortedByName(t) && DistinctNames(s)
    ensures t != [] && s[0] == t[0]
  {
    hide Leq;
    assert s[0] in multiset(t);
    assert t[0] in multiset(s);
    var i :| 0 <= i < |t| && t[i] == s[0];
    var j :| 0 <= j < |s| && s[j] == t[0];
    LeqTotal(s[0].name, s[0].name);
    LeqTotal(s[0].name, t[0].name);
  }

  lemma TailCounts(s: seq<Label>)
    requires s != []
    ensures multiset(s[1..]) == multiset(s) - multiset{s[0]}
  {
    assert s == [s[0]] + s[1..];
  }

  /** Any sorting algorithm gives the same list when the names are distinct. */
  lemma {:induction false} SortIsUnique(s: seq<Label>, t: seq<Label>)
    requires multiset(s) == multiset(t) && SortedByName(s) && SortedByName(t) && DistinctNames(s)
    ensures s == t
    decreases |s|
  {
    hide Leq;
    if s == [] {
      assert |multiset(t)| == 0;
    } else {
      SameHead(s, t);
      TailCounts(s);
      TailCounts(t);
      SortIsUnique(s[1..], t[1..]);
      assert s == [s[0]] + s[1..] && t == [t[0]] + t[1..];
    }
  }

  function Insert(l: Label, s: seq<Label>): (r: seq<Label>)
    ensures multiset(r) == multiset(s) + multiset{l}
  {
    if s == [] || Leq(l.name, s[0].name) then [l] + s
    else
      assert s == [s[0]] + s[1..];
      [s[0]] + Insert(l, s[1..])
  }

  function Sort(s: seq<Label>): (r: seq<Label>)
    ensures multiset(r) == multiset(s)
  {
    if s == [] then []
    else
      assert s == [s[0]] + s[1..];
      Insert(s[0], Sort(s[1..]))
  }

  lemma {:induction false} InsertSorts(l: Label, s: seq<Label>)
    requires SortedByName(s)
    ensures SortedByName(Insert(l, s))
  {
    var r := Insert(l, s);
    if s != [] && !Leq(l.name, s[0].name) {
      LeqTotal(l.name, s[0].name);
      InsertSorts(l, s[1..]);
      forall j | 1 <= j < |r| ensures Leq(r[0].name, r[j].name) {
        assert r[j] in multiset(Insert(l, s[1..]));
        assert r[j] == l || r[j] in s[1..];
      }
    } else if s != [] {
      forall j | 1 <= j < |r| ensures Leq(r[0].name, r[j].name) {
        if j > 1 { LeqTransitive(l.name, s[0].name, s[j - 1].name); }
      }
    }
  }

  lemma {:induction false} SortSorts(s: seq<Label>)
    ensures SortedByName(Sort(s))
  {
    if s != [] {
      SortSorts(s[1..]);
      InsertSorts(s[0], Sort(s[1..]));
    }
  }

  // ---- Joining and splitting ----

  function Join(s: seq<Label>): string
    requires s != []
  {
    Piece(s[0]) + if |s| == 1 then "" else "," + Join(s[1..])
  }

  function Piece(l: Label): string { l.name + "=" + l.value }

  function Serialize(s: seq<Label>): (r: string) {
    if s == [] then MISSING else Join(Sort(s))
  }

  /** strings.Split on one character. */
  function Split(s: string, sep: char): (r: seq<string>)
    ensures |r| >= 1
  {
    if s == [] then [""]
    else
      var r := Split(s[1..], sep);
      if s[0] == sep then [""] + r else [[s[0]] + r[0]] + r[1..]
  }

  /** deserializeCals; indexing past the end of a split panics: None. */
  function Deserialize(key: string): (r: Option<seq<Label>>) {
    if key == MISSING then Some([]) else Labels(Split(key, ','))
  }

  function Labels(pieces: seq<string>): (r: Option<seq<Label>>) {
    if pieces == [] then Some([])
    else
      var c := Split(pieces[0], '=');
      match Labels(pieces[1..])
      case None => None
      case Some(rest) => if |c| < 2 then None else Some([Label(c[0], c[1])] + rest)
  }

  predicate CleanLabel(l: Label) {
    ',' !in l.name && ',' !in l.value && '=' !in l.name && '=' !in l.value
  }

  predicate Clean(s: seq<Label>) { forall l :: l in s ==> CleanLabel(l) }

  lemma {:induction false} SplitPlain(s: string, sep: char)
    requires sep !in s
    ensures Split(s, sep) == [s]
  {
    if s != [] {
      SplitPlain(s[1..], sep);
      assert [s[0]] + s[1..] == s;
    }
  }

  /** A separator after text without one splits there. */
  lemma {:induction false} SplitAt(a: string, sep: char, b: string)
    requires sep !in a
    ensures Split(a + [sep] + b, sep) == [a] + Split(b, sep)
  {
    var s := a + [sep] + b;
    if a == [] {
      assert s[1..] == b;
    } else {
      assert s[1..] == a[1..] + [sep] + b;
      SplitAt(a[1..], sep, b);
      assert [a[0]] + a[1..] == a;
    }
  }

  function Count(s: string, c: char): nat {
    if s == [] then 0 else (if s[0] == c then 1 else 0) + Count(s[1..], c)
  }

  lemma {:induction false} CountAppend(a: string, b: string, c: char)
    ensures Count(a + b, c) == Count(a, c) + Count(b, c)
  {
    if a == [] {
      assert a + b == b;
    } else {
      assert (a + b)[1..] == a[1..] + b;
      CountAppend(a[1..], b, c);
    }
  }

  lemma {:induction false} CountZero(s: string, c: char)
    ensures Count(s, c) == 0 <==> c !in s
  {
    if s != [] {
      assert s == [s[0]] + s[1..];
      CountZero(s[1..], c);
    }
  }

  lemma {:induction false} SplitLength(s: string, sep: char)
    ensures |Split(s, sep)| == 1 + Count(s, sep)
  {
    if s != [] {
      SplitLength(s[1..], sep);
    }
  }

  predicate NoCommas(s: seq<Label>) { forall l :: l in s ==> ',' !in Piece(l) }

  /** Commas inside labels add pieces. */
  lemma {:induction false} JoinCommas(s: seq<Label>)
    requires s != []
    ensures Count(Join(s), ',') >= |s| - 1
    ensures Count(Join(s), ',') == |s| - 1 <==> NoCommas(s)
  {
    hide Piece;
    CountZero(Piece(s[0]), ',');
    assert s == [s[0]] + s[1..];
    if |s| == 1 {
      assert Join(s) == Piece(s[0]);
    } else {
      var rest := "," + Join(s[1..]);
      CountAppend(Piece(s[0]), rest, ',');
      assert rest[1..] == Join(s[1..]);
      JoinCommas(s[1..]);
    }
  }

  lemma {:induction false} JoinSplits(s: seq<Label>)
    requires s != [] && NoCommas(s)
    ensures |Split(Join(s), ',')| == |s|
    ensures forall i :: 0 <= i < |s| ==> Split(Join(s), ',')[i] == Piece(s[i])
  {
    if |s| == 1 {
      assert Join(s) == Piece(s[0]);
      SplitPlain(Piece(s[0]), ',');
    } else {
      assert Join(s) == Piece(s[0]) + "," + Join(s[1..]);
      SplitAt(Piece(s[0]), ',', Join(s[1..]));
      JoinSplits(s[1..]);
    }
  }

  /** One label survives exactly when it holds no '='. */
  lemma PieceSplits(l: Label)
    ensures var c := Split(Piece(l), '=');
      |c| >= 2 && (c[0] == l.name && c[1] == l.value <==> '=' !in l.name && '=' !in l.value)
  {
    hide Split;
    if '=' !in l.name {
      SplitAt(l.name, '=', l.value);
      FirstPiece(l.value, '=');
    } else {
      assert Piece(l) == l.name + ("=" + l.value);
      FirstPieceOfPrefix(l.name, "=" + l.value, '=');
      SplitLength(Piece(l), '=');
      CountZero(Piece(l), '=');
      assert Piece(l)[|l.name|] == '=';
    }
  }

  lemma {:induction false} FirstPiece(s: string, sep: char)
    ensures Split(s, sep)[0] == s <==> sep !in s
  {
    if sep !in s {
      SplitPlain(s, sep);
    } else {
      FirstPieceOfPrefix(s, "", sep);
      assert s + "" == s;
    }
  }

  lemma {:induction false} FirstPieceOfPrefix(s: string, more: string, sep: char)
    requires sep in s
    ensures |Split(s + more, sep)[0]| < |s|
  {
    assert (s + more)[1..] == s[1..] + more;
    if s[0] != sep { FirstPieceOfPrefix(s[1..], more, sep); }
  }

  lemma {:induction false} LabelsLength(pieces: seq<string>)
    requires Labels(pieces).Some?
    ensures |Labels(pieces).value| == |pieces|
  {
    if pieces != [] { LabelsLength(pieces[1..]); }
  }

  predicate NoEquals(s: seq<Label>) { forall l :: l in s ==> '=' !in l.name && '=' !in l.value }

  lemma {:induction false} LabelsOfPieces(s: seq<Label>, pieces: seq<string>)
    requires |pieces| == |s| && forall i :: 0 <= i < |s| ==> pieces[i] == Piece(s[i])
    ensures Labels(pieces).Some?
    ensures Labels(pieces).value == s <==> NoEquals(s)
  {
    hide Split, Piece;
    if s != [] {
      LabelsOfPieces(s[1..], pieces[1..]);
      PieceSplits(s[0]);
      assert s == [s[0]] + s[1..];
      assert Labels(pieces).value[1..] == Labels(pieces[1..]).value;
    }
  }

  /** Splitting where two texts were joined by the separator. */
  lemma {:induction false} SplitJoined(a: string, sep: char, b: string)
    ensures Split(a + [sep] + b, sep) == Split(a, sep) + Split(b, sep)
  {
    var s := a + [sep] + b;
    if a == [] {
      assert s[1..] == b;
    } else {
      assert s[1..] == a[1..] + [sep] + b;
      SplitJoined(a[1..], sep, b);
    }
  }

  /** Every comma-separated part of the label's text holds an equals sign. */
  predicate ReadableLabel(l: Label) { AllHoldEquals(Split(Piece(l), ',')) }

  predicate AllHoldEquals(pieces: seq<string>) { forall p :: p in pieces ==> '=' in p }

  lemma HoldInBoth(a: seq<string>, b: seq<string>)
    ensures AllHoldEquals(a + b) <==> AllHoldEquals(a) && AllHoldEquals(b)
  {
    forall p | p in a ensures p in a + b {
    }
    forall p | p in b ensures p in a + b {
    }
  }

  predicate Readable(s: seq<Label>) { forall l :: l in s ==> ReadableLabel(l) }

  lemma {:induction false} JoinReadableIff(s: seq<Label>)
    requires s != []
    ensures AllHoldEquals(Split(Join(s), ',')) <==> Readable(s)
  {
    hide Split, Piece;
    assert s == [s[0]] + s[1..];
    if |s| == 1 {
      assert Join(s) == Piece(s[0]);
      assert Readable(s) <==> ReadableLabel(s[0]);
    } else {
      assert Join(s) == Piece(s[0]) + [','] + Join(s[1..]);
      var (first, rest) := (Split(Piece(s[0]), ','), Split(Join(s[1..]), ','));
      SplitJoined(Piece(s[0]), ',', Join(s[1..]));
      assert AllHoldEquals(first + rest) <==> AllHoldEquals(first) && AllHoldEquals(rest) by { HoldInBoth(first, rest); }
      JoinReadableIff(s[1..]);
      assert Readable(s) <==> ReadableLabel(s[0]) && Readable(s[1..]);
    }
  }

  lemma {:induction false} LabelsSomeIff(pieces: seq<string>)
    ensures Labels(pieces).Some? <==> AllHoldEquals(pieces)
  {
    hide Split;
    if pieces != [] {
      LabelsSomeIff(pieces[1..]);
      SplitLength(pieces[0], '=');
      CountZero(pieces[0], '=');
      assert pieces == [pieces[0]] + pieces[1..];
    }
  }

  /** Reading a key back panics exactly when some label has a comma-separated
      part without an equals sign. */
  lemma ReadsBackIff(s: seq<Label>)
    ensures Deserialize(Serialize(s)).Some? <==> Readable(s)
  {
    if s != [] {
      hide Sort, Join, Split, Labels, ReadableLabel;
      SameMembers(s);
      JoinIsNotMissing(Sort(s));
      JoinReadableIff(Sort(s));
      LabelsSomeIff(Split(Join(Sort(s)), ','));
    }
  }

  /** A comma in a value with no equals sign after it. */
  lemma UnreadableValue(name: string, start: string, rest: string)
    requires ',' !in name && ',' !in start && ',' !in rest && '=' !in rest
    ensures !ReadableLabel(Label(name, start + [','] + rest))
  {
    var (l, first) := (Label(name, start + [','] + rest), name + "=" + start);
    assert Piece(l) == first + [','] + rest;
    hide Split, Piece;
    SplitAt(first, ',', rest);
    SplitPlain(rest, ',');
    assert Split(Piece(l), ',')[1] == rest;
  }

  lemma ReadingBackCanPanic()
    ensures Deserialize(Serialize([Label("a", "b,c")])).None?
  {
    hide Split, Sort, Join, Labels, Piece, Deserialize, Serialize, ReadableLabel;
    var l := Label("a", "b,c");
    UnreadableValue("a", "b", "c");
    assert "b" + [','] + "c" == "b,c" && l in [l];
    ReadsBackIff([l]);
  }

  lemma JoinIsNotMissing(s: seq<Label>)
    requires s != []
    ensures Join(s) != MISSING
  {
    assert Join(s)[|s[0].name|] == '=';
    assert forall i :: 0 <= i < |MISSING| ==> MISSING[i] != '=';
  }

  /** The key reads back as the sorted labels exactly when no name and no value
      holds a comma or an equals sign; otherwise it reads back as other labels
      or makes deserializeCals panic. */
  lemma RoundTripIff(s: seq<Label>)
    ensures Deserialize(Serialize(s)) == Some(Sort(s)) <==> Clean(s)
  {
    if s != [] {
      hide Sort, Join, Split, Labels;
      SameMembers(s);
      JoinedRoundTripIff(Sort(s));
    }
  }

  lemma KeyCanReadBackOtherwise()
    ensures Deserialize(Serialize([Label("a", "b=c")])) != Some(Sort([Label("a", "b=c")]))
  {
    RoundTripIff([Label("a", "b=c")]);
    assert "b=c"[1] == '=';
    assert Label("a", "b=c") in [Label("a", "b=c")];
  }

  lemma JoinedRoundTripIff(t: seq<Label>)
    requires t != []
    ensures Deserialize(Join(t)) == Some(t) <==> Clean(t)
  {
    hide Join, Split, Labels;
    JoinIsNotMissing(t);
    JoinCommas(t);
    SplitLength(Join(t), ',');
    if NoCommas(t) {
      JoinSplits(t);
      LabelsOfPieces(t, Split(Join(t), ','));
    } else if Deserialize(Join(t)).Some? {
      LabelsLength(Split(Join(t), ','));
    }
    assert Clean(t) <==> NoCommas(t) && NoEquals(t);
  }

  lemma SameMembers(s: seq<Label>)
    ensures forall l :: l in s <==> l in Sort(s)
    ensures s == [] <==> Sort(s) == []
  {
    forall l ensures l in s <==> l in Sort(s) {
      assert l in multiset(s) <==> l in multiset(Sort(s));
    }
    assert |multiset(s)| == |multiset(Sort(s))|;
  }

  /** Names without separators and values without commas: the key can be taken
      apart again, although values may hold equals signs. */
  predicate Separable(s: seq<Label>) {
    forall l :: l in s ==> ',' !in l.name && ',' !in l.value && '=' !in l.name
  }

  lemma PieceIsOneToOne(l: Label, m: Label)
    requires '=' !in l.name && '=' !in m.name && Piece(l) == Piece(m)
    ensures l == m
  {
    assert Piece(l)[|l.name|] == '=' && Piece(m)[|m.name|] == '=';
    assert forall i :: 0 <= i < |l.name| ==> Piece(l)[i] == l.name[i] != '=';
    assert forall i :: 0 <= i < |m.name| ==> Piece(m)[i] == m.name[i] != '=';
    assert |l.name| == |m.name|;
    assert Piece(l)[..|l.name|] == l.name && Piece(l)[|l.name| + 1..] == l.value;
    assert Piece(m)[..|m.name|] == m.name && Piece(m)[|m.name| + 1..] == m.value;
  }

  lemma JoinIsOneToOne(s: seq<Label>, t: seq<Label>)
    requires s != [] && t != [] && Separable(s) && Separable(t) && Join(s) == Join(t)
    ensures s == t
  {
    assert NoCommas(s) && NoCommas(t);
    JoinSplits(s);
    JoinSplits(t);
    hide Piece, Split, Join;
    forall i | 0 <= i < |s| ensures s[i] == t[i] {
      assert Piece(s[i]) == Split(Join(s), ',')[i] == Piece(t[i]);
      PieceIsOneToOne(s[i], t[i]);
    }
  }

  /** Two separable lists share a key exactly when they hold the same labels. */
  lemma SameKeyIffSameLabels(s: seq<Label>, t: seq<Label>)
    requires Separable(s) && Separable(t) && DistinctNames(s)
    ensures Serialize(s) == Serialize(t) <==> multiset(s) == multiset(t)
  {
    hide Join, Sort;
    SameMembers(s);
    SameMembers(t);
    if multiset(s) == multiset(t) {
      SortSorts(s);
      SortSorts(t);
      DistinctSorted(s);
      SortIsUnique(Sort(s), Sort(t));
      assert |multiset(s)| == |s| && |multiset(t)| == |t|;
    } else if Serialize(s) == Serialize(t) {
      if s != [] && t != [] {
        JoinIsOneToOne(Sort(s), Sort(t));
      } else if s != [] {
        JoinIsNotMissing(Sort(s));
      } else if t != [] {
        JoinIsNotMissing(Sort(t));
      }
    }
  }

  // ---- Keys that several lists share ----

  lemma SingleKey(l: Label)
    ensures Serialize([l]) == Piece(l)
  {
    assert [l][1..] == [];
    assert Sort([l]) == [l];
  }

  /** `t` is counted where `s` is and holds other labels. */
  predicate Clashes(s: seq<Label>, t: seq<Label>) {
    Serialize(t) == Serialize(s) && multiset(t) != multiset(s)
  }

  /** Cutting a text at any equals sign gives a label with that text. */
  lemma CutAt(text: string, k: nat)
    requires k < |text| && text[k] == '='
    ensures Piece(Label(text[..k], text[k + 1..])) == text
  {
  }

  lemma OtherCut(l: Label, k: nat)
    requires k < |Piece(l)| && Piece(l)[k] == '=' && k != |l.name|
    ensures Clashes([l], [Label(Piece(l)[..k], Piece(l)[k + 1..])])
  {
    var m := Label(Piece(l)[..k], Piece(l)[k + 1..]);
    CutAt(Piece(l), k);
    SingleKey(l);
    SingleKey(m);
    assert |m.name| == k && m in multiset([m]) && m !in multiset([l]);
  }

  lemma LongListClashes(s: seq<Label>)
    requires |s| >= 2
    ensures exists t :: Clashes(s, t)
  {
    var sorted := Sort(s);
    assert |multiset(sorted)| == |multiset(s)| == |s|;
    var (key, k) := (Join(sorted), |sorted[0].name|);
    assert key[k] == '=';
    var l := Label(key[..k], key[k + 1..]);
    CutAt(key, k);
    SingleKey(l);
    assert |multiset([l])| == 1;
    assert Clashes(s, [l]);
  }

  /** A list of labels has at least one equals sign each. */
  lemma {:induction false} JoinEquals(s: seq<Label>)
    requires s != []
    ensures Count(Join(s), '=') >= |s|
  {
    hide Piece;
    CountZero(Piece(s[0]), '=');
    assert Piece(s[0])[|s[0].name|] == '=' by { PieceHasEquals(s[0]); }
    if |s| == 1 {
      assert Join(s) == Piece(s[0]);
    } else {
      var rest := "," + Join(s[1..]);
      CountAppend(Piece(s[0]), rest, '=');
      assert rest[1..] == Join(s[1..]);
      JoinEquals(s[1..]);
    }
  }

  lemma PieceHasEquals(l: Label)
    ensures |l.name| < |Piece(l)| && Piece(l)[|l.name|] == '='
  {
  }

  predicate OneEquals(l: Label) { '=' !in l.name && '=' !in l.value }

  lemma SingleIsAlone(l: Label, t: seq<Label>)
    requires OneEquals(l) && Serialize(t) == Serialize([l])
    ensures t == [l]
  {
    SingleKey(l);
    JoinIsNotMissing([l]);
    assert Join([l]) == Piece(l);
    var sorted := Sort(t);
    SameMembers(t);
    assert |multiset(sorted)| == |multiset(t)| == |t|;
    JoinEquals(sorted);
    OnlyOne(l);
    assert |t| == 1;
    assert t == [t[0]];
    SingleKey(t[0]);
    assert Piece(t[0])[|t[0].name|] == '=';
    assert |t[0].name| == |l.name|;
    assert Piece(l)[..|l.name|] == l.name && Piece(l)[|l.name| + 1..] == l.value;
    assert Piece(t[0])[..|l.name|] == t[0].name && Piece(t[0])[|l.name| + 1..] == t[0].value;
  }

  lemma OnlyOne(l: Label)
    requires OneEquals(l)
    ensures Count(Piece(l), '=') == 1
    ensures forall i :: 0 <= i < |Piece(l)| && Piece(l)[i] == '=' ==> i == |l.name|
  {
    CountZero(l.name, '=');
    CountZero(l.value, '=');
    CountAppend(l.name, "=" + l.value, '=');
    assert Piece(l) == l.name + ("=" + l.value) && ("=" + l.value)[1..] == l.value;
  }

  /** Some other list of labels has the same key, exactly for lists of two labels
      or more and for a single label with an equals sign of its own. */
  lemma ClashIff(s: seq<Label>)
    ensures (exists t :: Clashes(s, t)) <==> |s| >= 2 || (|s| == 1 && !OneEquals(s[0]))
  {
    if |s| >= 2 {
      LongListClashes(s);
    } else if |s| == 1 {
      assert s == [s[0]];
      if OneEquals(s[0]) {
        forall t | Serialize(t) == Serialize(s) ensures t == s { SingleIsAlone(s[0], t); }
      } else {
        var k :| 0 <= k < |Piece(s[0])| && Piece(s[0])[k] == '=' && k != |s[0].name| by { ExtraEquals(s[0]); }
        OtherCut(s[0], k);
      }
    } else {
      forall t | Serialize(t) == Serialize(s) ensures t == s {
        if t != [] { SameMembers(t); JoinIsNotMissing(Sort(t)); }
      }
    }
  }

  lemma ExtraEquals(l: Label)
    requires !OneEquals(l)
    ensures exists k :: 0 <= k < |Piece(l)| && Piece(l)[k] == '=' && k != |l.name|
  {
    if '=' in l.name {
      var k :| 0 <= k < |l.name| && l.name[k] == '=';
      assert Piece(l)[k] == '=';
    } else {
      var k :| 0 <= k < |l.value| && l.value[k] == '=';
      assert Piece(l)[|l.name| + 1 + k] == '=';
    }
  }

  /** Two values whose common text can be cut in two places. */
  lemma TwoCuts(n: string, m: string, p: string, q: string, r: string)
    requires Leq(n, m)
    ensures Serialize([Label(n, p + "," + m + "=" + q), Label(m, r)]) == Serialize([Label(n, p), Label(m, q + "," + m + "=" + r)])
  {
    var (a, b) := (Label(n, p + "," + m + "=" + q), Label(m, r));
    var (c, d) := (Label(n, p), Label(m, q + "," + m + "=" + r));
    var (x, y, z) := (n + "=" + p, m + "=" + q, m + "=" + r);
    assert Piece(b) == z && Piece(c) == x;
    hide Serialize, Piece;
    PairKey(a, b);
    PairKey(c, d);
    Recut(n, p, m, q);
    Recut(m, q, m, r);
    CommasAssociate(x, y, z);
  }

  lemma CommasAssociate(x: string, y: string, z: string)
    ensures (x + "," + y) + "," + z == x + "," + (y + "," + z)
  {
  }

  lemma Recut(n: string, p: string, m: string, q: string)
    ensures Piece(Label(n, p + "," + m + "=" + q)) == (n + "=" + p) + "," + (m + "=" + q)
  {
  }

  lemma PairKey(a: Label, b: Label)
    requires Leq(a.name, b.name)
    ensures Serialize([a, b]) == Piece(a) + "," + Piece(b)
  {
    hide Piece, Leq;
    assert [a, b][1..] == [b] && [b][1..] == [];
    assert Sort([b]) == [b];
    assert Sort([a, b]) == [a] + [b] == [a, b];
    assert Join([b]) == Piece(b) + "";
  }

  /** Labels of the same two names, read back without a panic, with the same key. */
  lemma DifferentLabelsCanShareKey()
    ensures var (s, t) := ([Label("a", "b,c=x"), Label("c", "y")], [Label("a", "b"), Label("c", "x,c=y")]);
      && DistinctNames(s) && DistinctNames(t) && Readable(s) && Readable(t)
      && Serialize(s) == Serialize(t) && multiset(s) != multiset(t)
  {
    hide Serialize, Readable, DistinctNames;
    ClashingKeys();
    ClashingReadable();
    var (s, t) := ([Label("a", "b,c=x"), Label("c", "y")], [Label("a", "b"), Label("c", "x,c=y")]);
    TwoNames(s[0], s[1]);
    TwoNames(t[0], t[1]);
    assert s[0] in multiset(s) && s[0].value != t[0].value && s[0].name != t[1].name;
    assert s[0] !in multiset(t);
  }

  lemma TwoNames(a: Label, b: Label)
    requires a.name != b.name
    ensures DistinctNames([a, b])
  {
  }

  lemma ClashingKeys()
    ensures Serialize([Label("a", "b,c=x"), Label("c", "y")]) == Serialize([Label("a", "b"), Label("c", "x,c=y")])
  {
    hide Serialize;
    assert Leq("a", "c");
    TwoCuts("a", "c", "b", "x", "y");
    assert "b" + "," + "c" + "=" + "x" == "b,c=x";
    assert "x" + "," + "c" + "=" + "y" == "x,c=y";
  }

  lemma ClashingReadable()
    ensures Readable([Label("a", "b,c=x"), Label("c", "y")]) && Readable([Label("a", "b"), Label("c", "x,c=y")])
  {
    hide Split;
    TwoParts("a=b", "c=x");
    TwoParts("c=x", "c=y");
    OnePart("c=y");
    OnePart("a=b");
    assert Piece(Label("a", "b,c=x")) == "a=b" + [','] + "c=x" && Piece(Label("c", "y")) == "c=y";
    assert Piece(Label("a", "b")) == "a=b" && Piece(Label("c", "x,c=y")) == "c=x" + [','] + "c=y";
  }

  lemma OnePart(a: string)
    requires ',' !in a && '=' in a
    ensures AllHoldEquals(Split(a, ','))
  {
    SplitPlain(a, ',');
  }

  lemma TwoParts(a: string, b: string)
    requires ',' !in a && ',' !in b && '=' in a && '=' in b
    ensures AllHoldEquals(Split(a + [','] + b, ','))
  {
    SplitAt(a, ',', b);
    SplitPlain(b, ',');
  }

  lemma {:induction false} DistinctInserted(l: Label, s: seq<Label>)
    requires DistinctNames(s) && forall x :: x in s ==> x.name != l.name
    ensures DistinctNames(Insert(l, s))
  {
    if s != [] && !Leq(l.name, s[0].name) {
      DistinctInserted(l, s[1..]);
      var r := Insert(l, s[1..]);
      forall x | x in r ensures x.name != s[0].name {
        assert x in multiset(r);
        assert x == l || x in multiset(s[1..]);
      }
    }
  }

  lemma {:induction false} DistinctSorted(s: seq<Label>)
    requires DistinctNames(s)
    ensures DistinctNames(Sort(s))
  {
    if s != [] {
      DistinctSorted(s[1..]);
      SameMembers(s[1..]);
      DistinctInserted(s[0], Sort(s[1..]));
    }
  }
}
