/** `get_new_prompt_id`: the best-effort sequential allocator of human-facing `PRM-###` codes. */
module PromptIds {
  import opened Wrappers
  import opened Text
  import opened Records

  const FirstPromptId := "PRM-001"

  /** `"PRM-%03d" % n` */
  function FormatPromptId(n: nat): (r: string)
    ensures |r| >= 7 && r[..4] == "PRM-" && IsDigits(r[4..]) && Value(r[4..]) == n
    ensures |r| > 7 ==> r[4] != '0'
  {
    var r := "PRM-" + Pad3(n);
    assert r[4..] == Pad3(n);
    r
  }

  /** `int(s)`, restricted to strings of ASCII digits; anything else is a `ValueError`. */
  function ParseInt(s: string): (r: Option<nat>)
    ensures r.Some? <==> s != [] && IsDigits(s)
    ensures r.Some? ==> r.value == Value(s)
  {
    if s != [] && IsDigits(s) then Some(Value(s)) else None
  }

  /** `pid.split('-')[1]`; `None` stands for the `IndexError` when there is no `-`. */
  function Component1(pid: string): (r: Option<string>)
    ensures r.None? <==> '-' !in pid
    ensures r.Some? ==> '-' !in r.value
  {
    var parts := Split(pid, '-');
    if |parts| >= 2 then
      assert pid == parts[0] + ['-'] + Join(parts[1..], '-');
      Some(parts[1])
    else
      assert pid == parts[0];
      None
  }

  /** The string between the first and the second `-` (or the end) is component 1. */
  lemma Component1Of(a: string, b: string, tail: string)
    requires '-' !in a && '-' !in b
    requires tail == [] || tail[0] == '-'
    ensures Component1(a + "-" + b + tail) == Some(b)
  {
    SplitAtSeparator(a, b + tail, '-');
    assert a + "-" + b + tail == a + ['-'] + (b + tail);
    SplitPrefix(b, tail, '-');
    assert Split(tail, '-')[0] == [] by {
      if tail != [] {
        assert tail == ['-'] + tail[1..];
      }
    }
    assert b + [] == b;
  }

  /** The allocator's reply given the `prompt_id` of the record sorted last (`None`: no record,
    * or one without `prompt_id`). Every failure to parse falls back to `PRM-001`. */
  function NextPromptId(last: Option<string>): (r: string)
    ensures |r| >= 7 && r[..4] == "PRM-" && IsDigits(r[4..]) && Value(r[4..]) >= 1
  {
    match last
    case None => FormatPromptId(1)
    case Some(pid) =>
      match Component1(pid)
      case None => FormatPromptId(1)
      case Some(c) =>
        match ParseInt(c)
        case None => FormatPromptId(1)
        case Some(k) => FormatPromptId(k + 1)
  }

  lemma FirstIsFormatted()
    ensures FormatPromptId(1) == FirstPromptId
  {
    assert NatToString(1) == "1";
    assert Zeros(2) == "00";
  }

  // ---------------------------------------------------------------------------
  // The store's record sorted last by `prompt_id` (descending sort, first result)
  // ---------------------------------------------------------------------------

  /** The lexicographically greatest `prompt_id` among the fetched records, if any has one.
    * Records without the key sort below every string and are never chosen. */
  function MaxPromptId(s: seq<Summary>): (r: Option<string>)
    ensures r.None? <==> forall i :: 0 <= i < |s| ==> s[i].promptId.None?
    ensures r.Some? ==> exists i :: 0 <= i < |s| && s[i].promptId == r
    ensures r.Some? ==> forall i :: 0 <= i < |s| && s[i].promptId.Some? ==> StrLe(s[i].promptId.value, r.value)
  {
    if s == [] then None
    else
      var m := MaxPromptId(s[1..]);
      assert forall i :: 1 <= i < |s| ==> s[i] == s[1..][i - 1];
      match s[0].promptId
      case None => m
      case Some(p) =>
        if m.Some? && StrLt(p, m.value) then m
        else
          assert m.Some? ==> StrLe(m.value, p) by {
            if m.Some? { StrLtTotal(p, m.value); }
          }
          assert forall i :: 1 <= i < |s| && s[i].promptId.Some? ==> StrLe(s[i].promptId.value, p) by {
            forall i | 1 <= i < |s| && s[i].promptId.Some?
              ensures StrLe(s[i].promptId.value, p)
            {
              var q := s[i].promptId.value;
              assert StrLe(q, m.value);
              if q != m.value && m.value != p { StrLtTransitive(q, m.value, p); }
            }
          }
          Some(p)
  }

  // ---------------------------------------------------------------------------
  // What the allocator promises
  // ---------------------------------------------------------------------------

  /** No record, a record without `prompt_id`, or no `-` in it: `PRM-001`. */
  lemma AllocatorFallsBackWithoutComponent(last: Option<string>)
    requires last.None? || '-' !in last.value
    ensures NextPromptId(last) == FirstPromptId
  {
    FirstIsFormatted();
  }

  /** Component 1 present but not an integer (`ValueError`): `PRM-001`. */
  lemma AllocatorFallsBackOnNonInteger(a: string, b: string, tail: string)
    requires '-' !in a && '-' !in b
    requires tail == [] || tail[0] == '-'
    requires b == [] || !IsDigits(b)
    ensures NextPromptId(Some(a + "-" + b + tail)) == FirstPromptId
  {
    FirstIsFormatted();
    Component1Of(a, b, tail);
  }

  /** Component 1 denoting `k`: `"PRM-"` followed by `k + 1`, zero-padded to three digits and
    * never truncated. */
  lemma AllocatorIncrements(a: string, b: string, tail: string)
    requires '-' !in a && '-' !in b
    requires tail == [] || tail[0] == '-'
    requires b != [] && IsDigits(b)
    ensures NextPromptId(Some(a + "-" + b + tail)) == FormatPromptId(Value(b) + 1)
  {
    Component1Of(a, b, tail);
    NextOfComponent(a + "-" + b + tail, b);
  }

  lemma NextOfComponent(pid: string, c: string)
    requires Component1(pid) == Some(c) && c != [] && IsDigits(c)
    ensures NextPromptId(Some(pid)) == FormatPromptId(Value(c) + 1)
  {
    assert ParseInt(c) == Some(Value(c));
  }

  /** Allocating after an id the allocator formatted itself gives the next number. */
  lemma SuccessiveIds(k: nat)
    ensures NextPromptId(Some(FormatPromptId(k))) == FormatPromptId(k + 1)
  {
    var r := FormatPromptId(k);
    var digits := r[4..];
    assert r == "PRM" + "-" + digits + [];
    assert '-' !in digits by {
      forall i | 0 <= i < |digits| ensures digits[i] != '-' { assert IsDigit(digits[i]); }
    }
    AllocatorIncrements("PRM", digits, []);
  }

  lemma Allocator007()
    ensures NextPromptId(Some("PRM-007")) == "PRM-008"
  {
    assert "PRM-007" == "PRM" + "-" + "007" + [];
    Value007();
    AllocatorIncrements("PRM", "007", []);
    Format8();
  }

  lemma Value007()
    ensures IsDigits("007") && Value("007") == 7
  {
    assert "007"[..2] == "00";
    assert "00"[..1] == "0";
    assert "0"[..0] == "";
  }

  lemma Format8()
    ensures FormatPromptId(8) == "PRM-008"
  {
    assert NatToString(8) == "8";
    assert Zeros(2) == "00";
    assert Pad3(8) == "008";
  }

  lemma Allocator999()
    ensures NextPromptId(Some("PRM-999")) == "PRM-1000"
  {
    assert "PRM-999" == "PRM" + "-" + "999" + [];
    Value999();
    AllocatorIncrements("PRM", "999", []);
    Format1000();
  }

  lemma Format1000()
    ensures FormatPromptId(1000) == "PRM-1000"
  {
    Decimal1000();
  }

  lemma Value999()
    ensures IsDigits("999") && Value("999") == 999
  {
    assert "999"[..2] == "99";
    assert "99"[..1] == "9";
    assert "9"[..0] == "";
  }

  lemma Decimal1000()
    ensures Pad3(1000) == "1000"
  {
    assert DigitChar(0) == '0' && DigitChar(1) == '1';
    assert NatToString(1) == "1";
    assert NatToString(10) == NatToString(1) + [DigitChar(0)] == "10";
    assert NatToString(100) == NatToString(10) + [DigitChar(0)] == "100";
    assert NatToString(1000) == NatToString(100) + [DigitChar(0)] == "1000";
  }

  lemma AllocatorAbc()
    ensures NextPromptId(Some("PRM-abc")) == FirstPromptId
  {
    assert "PRM-abc" == "PRM" + "-" + "abc" + [];
    assert !IsDigit("abc"[0]);
    AllocatorFallsBackOnNonInteger("PRM", "abc", []);
  }

  /** Because the last record is chosen by string order, `PRM-999` stays "last" once `PRM-1000`
    * exists, and the allocator hands out `PRM-1000` a second time. */
  lemma AllocatorRepeatsAfterThousand()
    ensures var s := [Summary(1, None, None, Some("PRM-999")), Summary(2, None, None, Some("PRM-1000"))];
            MaxPromptId(s) == Some("PRM-999") && NextPromptId(MaxPromptId(s)) == s[1].promptId.value
  {
    NineHundredNinetyNineIsLast();
    Allocator999();
  }

  lemma NineHundredNinetyNineIsLast()
    ensures MaxPromptId([Summary(1, None, None, Some("PRM-999")), Summary(2, None, None, Some("PRM-1000"))])
            == Some("PRM-999")
  {
    var s := [Summary(1, None, None, Some("PRM-999")), Summary(2, None, None, Some("PRM-1000"))];
    assert StrLt("PRM-1000", "PRM-999") by {
      assert "PRM-1000"[..4] == "PRM-999"[..4];
      StrLtOfFirstDifference("PRM-1000", "PRM-999", 4);
    }
    StrLtAsymmetric("PRM-1000", "PRM-999");
    var t := s[1..];
    assert t == [s[1]] && t[1..] == [];
    assert MaxPromptId(t[1..]) == None;
    assert MaxPromptId(t) == Some("PRM-1000");
  }
}
