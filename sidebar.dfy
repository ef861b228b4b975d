/** The sidebar: status emoji, the (status rank, title) ordering of the fetched records, the
  * option labels of the "Saved Prompts" radio, and the record an option index loads. */
module Sidebar {
  import opened Wrappers
  import opened Text
  import opened Records

  const Green := "\U{1F7E2}"
  const Yellow := "\U{1F7E1}"
  const Red := "\U{1F534}"
  const NewPromptOption := "\U{2795} New Prompt"

  /** `get_status_emoji`: green for Approved, red for Deprecated, yellow for anything else. */
  function StatusEmoji(status: string): (e: string)
    ensures e == Green <==> status == Approved
    ensures e == Red <==> status == Deprecated
    ensures e == Yellow <==> status != Approved && status != Deprecated
  {
    if status == Approved then Green
    else if status == Deprecated then Red
    else Yellow
  }

  /** `status_order.get(p.get("status", "Draft"), 1)`: Approved 0, Deprecated 2, Draft, any
    * unknown status and a missing status 1. */
  function StatusRank(status: Option<string>): (r: nat)
    ensures r <= 2
    ensures r == 0 <==> status == Some(Approved)
    ensures r == 2 <==> status == Some(Deprecated)
  {
    var s := status.GetOr(Draft);
    if s == Approved then 0
    else if s == Deprecated then 2
    else 1
  }

  /** The emoji shown in a label and the rank used to sort that record tell the same story. */
  lemma EmojiAgreesWithRank(status: Option<string>)
    ensures StatusEmoji(status.GetOr(Draft)) == [Green, Yellow, Red][StatusRank(status)]
  {
  }

  // ---------------------------------------------------------------------------
  // The sort key and Python's stable `sorted`
  // ---------------------------------------------------------------------------

  datatype SortKey = SortKey(rank: nat, title: string)

  /** `(status rank, p.get("title", ""))` */
  function Key(p: Summary): (k: SortKey)
    ensures k.rank == StatusRank(p.status)
    ensures p.title.Some? ==> k.title == p.title.value
    ensures p.title.None? ==> k.title == ""
  {
    SortKey(StatusRank(p.status), p.title.GetOr(""))
  }

  /** Python's tuple `<` on sort keys. */
  predicate KeyLt(a: SortKey, b: SortKey)
  {
    a.rank < b.rank || (a.rank == b.rank && StrLt(a.title, b.title))
  }

  predicate KeyLe(a: SortKey, b: SortKey)
  {
    a == b || KeyLt(a, b)
  }

  lemma KeyLeTransitive(a: SortKey, b: SortKey, c: SortKey)
    requires KeyLe(a, b) && KeyLe(b, c)
    ensures KeyLe(a, c)
  {
    if a != b && b != c && a.rank == b.rank == c.rank {
      StrLtTransitive(a.title, b.title, c.title);
    }
  }

  lemma KeyTotal(a: SortKey, b: SortKey)
    ensures KeyLe(a, b) || KeyLt(b, a)
  {
    StrLtTotal(a.title, b.title);
  }

  predicate IsSortedByKey(s: seq<Summary>)
  {
    forall i, j :: 0 <= i < j < |s| ==> KeyLe(Key(s[i]), Key(s[j]))
  }

  /** The records of `s` whose key is `k`, in their order in `s`. */
  function WithKey(s: seq<Summary>, k: SortKey): seq<Summary>
  {
    if s == [] then [] else (if Key(s[0]) == k then [s[0]] else []) + WithKey(s[1..], k)
  }

  /** Puts `x` in front of the first record whose key is not below `x`'s. */
  function Insert(x: Summary, t: seq<Summary>): seq<Summary>
  {
    if t == [] then [x]
    else if KeyLe(Key(x), Key(t[0])) then [x] + t
    else [t[0]] + Insert(x, t[1..])
  }

  lemma {:induction false} InsertPermutes(x: Summary, t: seq<Summary>)
    ensures |Insert(x, t)| == |t| + 1
    ensures multiset(Insert(x, t)) == multiset(t) + multiset{x}
  {
    if t != [] && !KeyLe(Key(x), Key(t[0])) {
      InsertPermutes(x, t[1..]);
      assert t == [t[0]] + t[1..];
    }
  }

  lemma {:induction false} InsertSorted(x: Summary, t: seq<Summary>)
    requires IsSortedByKey(t)
    ensures IsSortedByKey(Insert(x, t))
  {
    if t == [] {
    } else if KeyLe(Key(x), Key(t[0])) {
      var r := [x] + t;
      forall i, j | 0 <= i < j < |r| ensures KeyLe(Key(r[i]), Key(r[j])) {
        if i == 0 {
          if j > 1 { KeyLeTransitive(Key(x), Key(t[0]), Key(t[j - 1])); }
        }
      }
    } else {
      var rest := Insert(x, t[1..]);
      InsertSorted(x, t[1..]);
      InsertPermutes(x, t[1..]);
      KeyTotal(Key(x), Key(t[0]));
      var r := [t[0]] + rest;
      forall j | 0 < j < |r| ensures KeyLe(Key(r[0]), Key(r[j])) {
        HeadBelowInserted(x, t, j - 1);
      }
      forall i, j | 0 < i < j < |r| ensures KeyLe(Key(r[i]), Key(r[j])) {
        assert r[i] == rest[i - 1] && r[j] == rest[j - 1];
      }
    }
  }

  /** The first record of a sorted `t` is not above anything inserted behind it. */
  lemma HeadBelowInserted(x: Summary, t: seq<Summary>, m: nat)
    requires IsSortedByKey(t) && t != [] && KeyLe(Key(t[0]), Key(x))
    requires m < |Insert(x, t[1..])|
    ensures KeyLe(Key(t[0]), Key(Insert(x, t[1..])[m]))
  {
    var rest := Insert(x, t[1..]);
    InsertPermutes(x, t[1..]);
    assert rest[m] in multiset(rest);
    if rest[m] != x {
      assert rest[m] in multiset(t[1..]);
      var n :| 0 <= n < |t[1..]| && t[1..][n] == rest[m];
      assert t[n + 1] == rest[m];
    }
  }

  /** Inserting `x` in front of records that come later in the input keeps every key class in
    * input order: `x` lands before the records that share its key. */
  lemma {:induction false} InsertStable(x: Summary, t: seq<Summary>, k: SortKey)
    ensures WithKey(Insert(x, t), k) == (if Key(x) == k then [x] else []) + WithKey(t, k)
  {
    if t == [] {
      assert Insert(x, t)[1..] == [];
    } else if KeyLe(Key(x), Key(t[0])) {
      assert ([x] + t)[1..] == t;
    } else {
      var rest := Insert(x, t[1..]);
      InsertStable(x, t[1..], k);
      assert ([t[0]] + rest)[1..] == rest;
      assert Key(t[0]) != Key(x);
    }
  }

  /** `sorted(all_prompts, key=…)`: a permutation of the fetched list, ordered by (status rank,
    * title), and stable: the records sharing any one key appear in their fetched order. */
  function SortPrompts(s: seq<Summary>): (r: seq<Summary>)
    ensures |r| == |s| && multiset(r) == multiset(s)
    ensures IsSortedByKey(r)
    ensures forall k :: WithKey(r, k) == WithKey(s, k)
  {
    if s == [] then []
    else
      var t := SortPrompts(s[1..]);
      SortStep(s, t);
      Insert(s[0], t)
  }

  /** Inserting the head of `s` into a stable sort of its tail sorts `s` stably. */
  lemma SortStep(s: seq<Summary>, t: seq<Summary>)
    requires s != []
    requires |t| == |s| - 1 && multiset(t) == multiset(s[1..])
    requires IsSortedByKey(t)
    requires forall k :: WithKey(t, k) == WithKey(s[1..], k)
    ensures var r := Insert(s[0], t);
            |r| == |s| && multiset(r) == multiset(s) && IsSortedByKey(r) &&
            forall k :: WithKey(r, k) == WithKey(s, k)
  {
    InsertPermutes(s[0], t);
    InsertSorted(s[0], t);
    assert s == [s[0]] + s[1..];
    SortStepStable(s, t);
  }

  lemma SortStepStable(s: seq<Summary>, t: seq<Summary>)
    requires s != []
    requires forall k :: WithKey(t, k) == WithKey(s[1..], k)
    ensures forall k :: WithKey(Insert(s[0], t), k) == WithKey(s, k)
  {
    forall k ensures WithKey(Insert(s[0], t), k) == WithKey(s, k) {
      InsertStable(s[0], t, k);
    }
  }

  /** Sorting changes nothing exactly when the fetched list is already in key order. */
  lemma {:induction false} SortIsIdentityIffSorted(s: seq<Summary>)
    ensures SortPrompts(s) == s <==> IsSortedByKey(s)
  {
    if IsSortedByKey(s) && s != [] {
      assert IsSortedByKey(s[1..]) by {
        forall i, j | 0 <= i < j < |s[1..]| ensures KeyLe(Key(s[1..][i]), Key(s[1..][j])) {
          assert s[1..][i] == s[i + 1] && s[1..][j] == s[j + 1];
        }
      }
      SortIsIdentityIffSorted(s[1..]);
      assert s == [s[0]] + s[1..];
    }
  }

  /** Approved records are listed above all others, Deprecated ones below all others. */
  lemma StatusGroupsInOrder(all: seq<Summary>, i: nat, j: nat)
    requires i < j < |all|
    ensures var r := SortPrompts(all);
            (r[j].status == Some(Approved) ==> r[i].status == Some(Approved)) &&
            (r[i].status == Some(Deprecated) ==> r[j].status == Some(Deprecated))
  {
    var r := SortPrompts(all);
    assert KeyLe(Key(r[i]), Key(r[j]));
  }

  // ---------------------------------------------------------------------------
  // The radio's options and the record an option loads
  // ---------------------------------------------------------------------------

  /** Stand-in for `str(p['_id'])`. */
  function IdText(id: Id): string
  {
    NatToString(id)
  }

  /** One sidebar option for a record: emoji, title (or "Untitled") and `[prompt_id]`, or the
    * first six characters of the `_id` text when there is no `prompt_id`. */
  function Label(p: Summary): string
  {
    var idText := IdText(p.id);
    var shortId := if |idText| <= 6 then idText else idText[..6];
    var head := StatusEmoji(p.status.GetOr(Draft)) + " ";
    var tail := " [" + p.promptId.GetOr(shortId) + "]";
    head + p.title.GetOr("Untitled") + tail
  }

  /** A label reads: the status emoji and a space, then the title (or "Untitled"), and ends with
    * the prompt id in brackets, or the first six characters of the record id when there is none. */
  lemma LabelParts(p: Summary)
    ensures var r := Label(p);
            var head := StatusEmoji(p.status.GetOr(Draft)) + " ";
            |head| <= |r| && r[..|head|] == head
    ensures var r := Label(p);
            var head := StatusEmoji(p.status.GetOr(Draft)) + " ";
            var title := if p.title.Some? then p.title.value else "Untitled";
            |head| + |title| <= |r| && r[|head|..|head| + |title|] == title
    ensures var r := Label(p);
            var tag := if p.promptId.Some? then p.promptId.value
                       else if |IdText(p.id)| <= 6 then IdText(p.id) else IdText(p.id)[..6];
            var tail := " [" + tag + "]";
            |tail| <= |r| && r[|r| - |tail|..] == tail
    ensures var head := StatusEmoji(p.status.GetOr(Draft)) + " ";
            var title := if p.title.Some? then p.title.value else "Untitled";
            var tag := if p.promptId.Some? then p.promptId.value
                       else if |IdText(p.id)| <= 6 then IdText(p.id) else IdText(p.id)[..6];
            |Label(p)| == |head| + |title| + |" [" + tag + "]"|
  {
    var idText := IdText(p.id);
    var shortId := if |idText| <= 6 then idText else idText[..6];
    var head := StatusEmoji(p.status.GetOr(Draft)) + " ";
    var title := p.title.GetOr("Untitled");
    var tail := " [" + p.promptId.GetOr(shortId) + "]";
    var r := head + title + tail;
    assert r == Label(p);
    assert r[..|head|] == head;
    assert r[|head|..|head| + |title|] == title;
    assert r[|r| - |tail|..] == tail;
  }

  /** `sidebar_options`: "New Prompt" first, then one label per record in sorted order. */
  function SidebarOptions(all: seq<Summary>): (r: seq<string>)
    ensures |r| == |all| + 1 && r[0] == NewPromptOption
    ensures forall i :: 1 <= i < |r| ==> r[i] == Label(SortPrompts(all)[i - 1])
  {
    var labels := Labels(SortPrompts(all));
    var r := [NewPromptOption] + labels;
    assert forall i :: 1 <= i < |r| ==> r[i] == labels[i - 1];
    r
  }

  function Labels(s: seq<Summary>): (r: seq<string>)
    ensures |r| == |s|
    ensures forall i :: 0 <= i < |s| ==> r[i] == Label(s[i])
  {
    if s == [] then [] else [Label(s[0])] + Labels(s[1..])
  }

  /** `None if is_new else all_prompts[selected_idx - 1]`: the record an option index loads,
    * taken from the fetched (unsorted) list. */
  function SelectedRecord(all: seq<Summary>, idx: nat): (r: Option<Id>)
    requires idx <= |all|
    ensures r.None? <==> idx == 0
    ensures idx > 0 ==> r == Some(all[idx - 1].id)
  {
    if idx == 0 then None else Some(all[idx - 1].id)
  }

  /** Option `i` is labelled after the `i`-th SORTED record but loads the `i`-th FETCHED one;
    * the two agree for every option exactly when the fetched list is already sorted. */
  lemma OptionLabelVersusLoadedRecord(all: seq<Summary>, i: nat)
    requires 1 <= i <= |all|
    ensures SidebarOptions(all)[i] == Label(SortPrompts(all)[i - 1])
    ensures SelectedRecord(all, i) == Some(all[i - 1].id)
    ensures IsSortedByKey(all) ==> SortPrompts(all)[i - 1] == all[i - 1]
  {
    SortIsIdentityIffSorted(all);
  }

  /** A Draft record fetched before an Approved one: option 1 shows the Approved record, yet
    * selecting it loads the Draft one. */
  lemma OptionLoadsOtherRecord()
    ensures var all := [Summary(1, Some("B"), Some(Draft), Some("PRM-001")),
                        Summary(2, Some("A"), Some(Approved), Some("PRM-002"))];
            SortPrompts(all)[0].id == 2 && SelectedRecord(all, 1) == Some(1)
  {
    var all := [Summary(1, Some("B"), Some(Draft), Some("PRM-001")),
                Summary(2, Some("A"), Some(Approved), Some("PRM-002"))];
    assert all[1..][1..] == [];
    assert Key(all[0]).rank == 1 && Key(all[1]).rank == 0;
  }
}
