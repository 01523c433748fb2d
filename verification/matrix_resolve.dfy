/** How the multi-sheet loader (`tum_kanal_abaklar_yukle`) finds the channel a
    worksheet belongs to (`handle`, lines 29-84): an alias table, then a
    two-way substring test over the channels keyed by name. */
module MatrixResolve {
  import opened Base
  import opened PyText
  import opened Workbook

  /** The sheet-name to channel-name table the command ships with. */
  const SheetAliases: map<string, string> := map[
    "çeltek regülatörü" := "ÇELTEK REGÜLATÖRÜ İLETİM",
    "Çeltek Regülatörü" := "ÇELTEK REGÜLATÖRÜ İLETİM",
    "Sheet1" := "ÇELTEK REGÜLATÖRÜ İLETİM",
    "Suluova Solsahil S1 Ana Kanalı" := "SULUOVA SOLSAHIL S1 ANA KANALI",
    "Suluova Solsahil S2 Ana Kanalı" := "SULUOVA SOLSAHIL S2 ANA KANALI",
    "Suluova Sağsahil S2 Ana Kanalı" := "SULUOVA SAĞSAHIL S2 ANA KANALI"
  ]

  /** The channel name searched for a sheet: the table's entry for the exact
      sheet name, or, when there is none (or it is empty), the sheet name
      without surrounding whitespace. */
  function Candidate(aliases: map<string, string>, sheetName: string): string {
    if sheetName in aliases && aliases[sheetName] != "" then aliases[sheetName]
    else Strip(sheetName)
  }

  /** The two-way substring test, after upper-casing both sides with `upper`. */
  predicate NameMatches(upper: string -> string, candidate: string, name: string) {
    Contains(upper(name), upper(candidate)) || Contains(upper(candidate), upper(name))
  }

  /** The position of the entry named `name`, or `|index|` when there is none. */
  function NamePos(index: seq<Channel>, name: string): (q: nat)
    ensures q <= |index|
    ensures forall j :: 0 <= j < q ==> index[j].name != name
    ensures q < |index| ==> index[q].name == name
    decreases |index|
  {
    if |index| == 0 || index[0].name == name then 0
    else 1 + NamePos(index[1..], name)
  }

  /** One step of building `{k.isim: k for k in channels}`: a channel whose
      name is already a key replaces that entry in place; a new name is
      appended. */
  function Put(index: seq<Channel>, c: Channel): seq<Channel> {
    var q := NamePos(index, c.name);
    if q < |index| then index[q := c] else index + [c]
  }

  ghost predicate DistinctNames(index: seq<Channel>) {
    forall p, q :: 0 <= p < q < |index| ==> index[p].name != index[q].name
  }

  /** The name-keyed dictionary of channels, as a sequence in the dictionary's
      iteration order: one entry per distinct name. */
  function NameIndex(channels: seq<Channel>): (index: seq<Channel>)
    ensures DistinctNames(index)
    decreases |channels|
  {
    if |channels| == 0 then []
    else
      var before := NameIndex(channels[..|channels| - 1]);
      PutDistinct(before, channels[|channels| - 1]);
      Put(before, channels[|channels| - 1])
  }

  lemma PutDistinct(index: seq<Channel>, c: Channel)
    requires DistinctNames(index)
    ensures DistinctNames(Put(index, c))
  {
  }

  /** `Put` keeps every key in its place and puts `c` under its own name:
      either in place of the entry with that name, or appended as a new key. */
  lemma PutShape(index: seq<Channel>, c: Channel)
    ensures var r := Put(index, c);
            && (forall p :: 0 <= p < |index| ==> p < |r| && r[p].name == index[p].name)
            && (forall p :: 0 <= p < |index| && r[p] != index[p] ==> r[p] == c)
            && (|r| == |index| ==> exists p :: 0 <= p < |r| && r[p] == c)
            && (|r| != |index| ==> r == index + [c] && forall p :: 0 <= p < |index| ==> index[p].name != c.name)
  {
  }

  /** Every entry of the dictionary is one of the channels, and every channel's
      name is a key of it. */
  lemma {:induction false} NameIndexCovers(channels: seq<Channel>)
    ensures forall p :: 0 <= p < |NameIndex(channels)| ==> NameIndex(channels)[p] in channels
    ensures forall i :: 0 <= i < |channels| ==>
              exists p :: 0 <= p < |NameIndex(channels)| && NameIndex(channels)[p].name == channels[i].name
    decreases |channels|
  {
    if |channels| > 0 {
      var n := |channels| - 1;
      var front := channels[..n];
      var c := channels[n];
      NameIndexCovers(front);
      var d0 := NameIndex(front);
      var d := NameIndex(channels);
      PutShape(d0, c);
      forall p | 0 <= p < |d| ensures d[p] in channels {
        if p < |d0| && d[p] == d0[p] {
          assert d0[p] in front;
        }
      }
      forall i | 0 <= i < |channels| ensures exists p :: 0 <= p < |d| && d[p].name == channels[i].name {
        if i < n {
          assert channels[i] == front[i];
          var p :| 0 <= p < |d0| && d0[p].name == front[i].name;
          assert d[p].name == channels[i].name;
        } else if |d| == |d0| {
          var p :| 0 <= p < |d| && d[p] == c;
        } else {
          assert d[|d0|] == c;
        }
      }
    }
  }

  /** The `for … break` loop over the dictionary: the first entry whose name
      matches the sheet's candidate name. */
  function ResolveChannel(upper: string -> string, aliases: map<string, string>,
                          sheetName: string, channels: seq<Channel>): Option<Channel>
  {
    var candidate := Candidate(aliases, sheetName);
    var index := NameIndex(channels);
    var p := FirstMatching(n => NameMatches(upper, candidate, n), index);
    if p < |index| then Some(index[p]) else None
  }

  /** `c` is the channel at position `k`, and no later channel shares its name. */
  ghost predicate LastNamed(channels: seq<Channel>, k: int, c: Channel) {
    0 <= k < |channels| && channels[k] == c
    && forall j :: k < j < |channels| ==> channels[j].name != c.name
  }

  /** `FirstMatching` is determined by its contract. */
  lemma FirstMatchingUnique(test: string -> bool, s: seq<Channel>, i: nat)
    requires i <= |s|
    requires forall j :: 0 <= j < i ==> !test(s[j].name)
    requires i < |s| ==> test(s[i].name)
    ensures FirstMatching(test, s) == i
  {
  }

  lemma FirstMatchingSnoc(test: string -> bool, s: seq<Channel>, c: Channel)
    ensures var f := FirstMatching(test, s);
            FirstMatching(test, s + [c]) == (if f < |s| then f else if test(c.name) then |s| else |s| + 1)
  {
    var f := FirstMatching(test, s);
    var t := s + [c];
    var g := if f < |s| then f else if test(c.name) then |s| else |s| + 1;
    assert forall j :: 0 <= j < |s| ==> t[j] == s[j];
    FirstMatchingUnique(test, t, g);
  }

  lemma FirstMatchingSameNames(test: string -> bool, s: seq<Channel>, t: seq<Channel>)
    requires |s| == |t|
    requires forall j :: 0 <= j < |s| ==> s[j].name == t[j].name
    ensures FirstMatching(test, s) == FirstMatching(test, t)
  {
    FirstMatchingUnique(test, t, FirstMatching(test, s));
  }

  /** Looking a name up through the dictionary finds the name of the first
      matching channel in the original order, and the entry for that name is
      the LAST channel carrying it (a later duplicate overwrites the value but
      keeps the key's place). */
  lemma {:induction false} IndexFirstMatch(test: string -> bool, channels: seq<Channel>)
    ensures var index := NameIndex(channels);
            var p := FirstMatching(test, index);
            var i := FirstMatching(test, channels);
            && (i == |channels| <==> p == |index|)
            && (i < |channels| ==> p < |index| && index[p].name == channels[i].name
                                   && exists k :: LastNamed(channels, k, index[p]))
    decreases |channels|
  {
    if |channels| > 0 {
      var n := |channels| - 1;
      var front := channels[..n];
      var c := channels[n];
      assert channels == front + [c];
      IndexFirstMatch(test, front);
      var d0 := NameIndex(front);
      var d := NameIndex(channels);
      PutShape(d0, c);
      FirstMatchingSnoc(test, front, c);
      if |d| == |d0| {
        FirstMatchingSameNames(test, d0, d);
        IndexStepReplace(test, front, c, d0, d);
      } else {
        FirstMatchingSnoc(test, d0, c);
        IndexStepAppend(test, front, c, d0, d);
      }
    }
  }

  /** The inductive step when the last channel's name is already a key. */
  lemma IndexStepReplace(test: string -> bool, front: seq<Channel>, c: Channel,
                         d0: seq<Channel>, d: seq<Channel>)
    requires DistinctNames(d0) && |d| == |d0|
    requires forall p :: 0 <= p < |d0| ==> d[p].name == d0[p].name
    requires forall p :: 0 <= p < |d0| && d[p] != d0[p] ==> d[p] == c
    requires exists p :: 0 <= p < |d| && d[p] == c
    requires var p0 := FirstMatching(test, d0);
             var i0 := FirstMatching(test, front);
             && (i0 == |front| <==> p0 == |d0|)
             && (i0 < |front| ==> p0 < |d0| && d0[p0].name == front[i0].name
                                   && exists k :: LastNamed(front, k, d0[p0]))
    requires FirstMatching(test, d) == FirstMatching(test, d0)
    ensures var channels := front + [c];
            var p := FirstMatching(test, d);
            var i := FirstMatching(test, channels);
            && (i == |channels| <==> p == |d|)
            && (i < |channels| ==> p < |d| && d[p].name == channels[i].name
                                   && exists k :: LastNamed(channels, k, d[p]))
  {
    FirstMatchingSnoc(test, front, c);
    var q :| 0 <= q < |d| && d[q] == c;
    if FirstMatching(test, front) < |front| {
      ReplaceKeepsLast(front, c, d0, d, FirstMatching(test, d), q);
    } else {
      assert c.name == d0[q].name;
    }
  }

  /** After an in-place replacement, the entry at `p` is still the last
      channel with its name. */
  lemma ReplaceKeepsLast(front: seq<Channel>, c: Channel, d0: seq<Channel>, d: seq<Channel>, p: nat, q: nat)
    requires DistinctNames(d0) && |d| == |d0| && p < |d| && q < |d| && d[q] == c
    requires forall p :: 0 <= p < |d0| ==> d[p].name == d0[p].name
    requires d[p] == d0[p] || d[p] == c
    requires exists k :: LastNamed(front, k, d0[p])
    ensures exists k :: LastNamed(front + [c], k, d[p])
  {
    var channels := front + [c];
    var k0 :| LastNamed(front, k0, d0[p]);
    if d[p] == c {
      assert LastNamed(channels, |front|, d[p]);
    } else {
      assert q != p;
      assert LastNamed(channels, k0, d[p]);
    }
  }

  /** The inductive step when the last channel brings a new name. */
  lemma IndexStepAppend(test: string -> bool, front: seq<Channel>, c: Channel,
                        d0: seq<Channel>, d: seq<Channel>)
    requires d == d0 + [c]
    requires forall p :: 0 <= p < |d0| ==> d0[p].name != c.name
    requires var p0 := FirstMatching(test, d0);
             var i0 := FirstMatching(test, front);
             && (i0 == |front| <==> p0 == |d0|)
             && (i0 < |front| ==> p0 < |d0| && d0[p0].name == front[i0].name
                                   && exists k :: LastNamed(front, k, d0[p0]))
    ensures var channels := front + [c];
            var p := FirstMatching(test, d);
            var i := FirstMatching(test, channels);
            && (i == |channels| <==> p == |d|)
            && (i < |channels| ==> p < |d| && d[p].name == channels[i].name
                                   && exists k :: LastNamed(channels, k, d[p]))
  {
    var channels := front + [c];
    FirstMatchingSnoc(test, front, c);
    FirstMatchingSnoc(test, d0, c);
    var p0 := FirstMatching(test, d0);
    if p0 < |d0| {
      var k0 :| LastNamed(front, k0, d0[p0]);
      assert LastNamed(channels, k0, d0[p0]);
    } else if test(c.name) {
      assert LastNamed(channels, |front|, c);
    }
  }

  /** Channel resolution for a sheet: the candidate is the alias entry for the
      exact sheet name, else the stripped sheet name. No channel is found iff no
      channel's name matches the candidate in either direction; otherwise the
      result carries the name of the FIRST matching channel in the given order
      and is the last channel with that name. */
  lemma ResolvesToFirstMatch(upper: string -> string, aliases: map<string, string>,
                             sheetName: string, channels: seq<Channel>)
    ensures var candidate := if sheetName in aliases && aliases[sheetName] != ""
                             then aliases[sheetName] else Strip(sheetName);
            var r := ResolveChannel(upper, aliases, sheetName, channels);
            && (r.None? <==> forall j :: 0 <= j < |channels| ==> !NameMatches(upper, candidate, channels[j].name))
            && forall i :: 0 <= i < |channels| && NameMatches(upper, candidate, channels[i].name)
                           && (forall j :: 0 <= j < i ==> !NameMatches(upper, candidate, channels[j].name))
                           ==> && r.Some? && r.value.name == channels[i].name
                               && exists k :: LastNamed(channels, k, r.value)
  {
    var candidate := Candidate(aliases, sheetName);
    var test := n => NameMatches(upper, candidate, n);
    IndexFirstMatch(test, channels);
    var i := FirstMatching(test, channels);
    forall i' | 0 <= i' < |channels| && test(channels[i'].name)
                && (forall j :: 0 <= j < i' ==> !test(channels[j].name))
      ensures i' == i
    {
      FirstMatchingUnique(test, channels, i');
    }
  }
}
