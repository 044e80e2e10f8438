/** The six-cell one-time-code entry of the forgot-password page. Each key
    event copies the cell array and rewrites at most one cell; the page
    submits the cells joined in order. Focus changes are returned as the
    index the handler asks to focus; the DOM itself is not modelled. */
module OtpInput {

  import opened Wrappers
  import opened OtpCode

  const OTP_LENGTH := 6

  /** A cell holds nothing or one decimal digit. */
  predicate IsCell(c: string)
  {
    c == "" || (|c| == 1 && IsDigit(c[0]))
  }

  predicate AllCells(otp: seq<string>)
  {
    forall i :: 0 <= i < |otp| ==> IsCell(otp[i])
  }

  /** The shape of the page's `otp` state. */
  predicate WellFormed(otp: seq<string>)
  {
    |otp| == OTP_LENGTH && AllCells(otp)
  }

  /** `Array(6).fill("")`. */
  function EmptyBuffer(): (otp: seq<string>)
    ensures WellFormed(otp)
    ensures forall i :: 0 <= i < |otp| ==> otp[i] == ""
  {
    ["", "", "", "", "", ""]
  }

  /** `val.slice(-1)`: the last character, or "" for "". */
  function LastChar(val: string): (r: string)
    ensures |r| <= 1
    ensures r == "" <==> val == ""
    ensures val != "" ==> r[0] == val[|val| - 1]
  {
    if val == "" then "" else [val[|val| - 1]]
  }

  /** The buffer after an event and the cell the handler moves focus to. */
  datatype Edit = Edit(otp: seq<string>, focus: Option<int>)

  /** `handleChange`: input that is not all digits (`/^\d*$/`) is ignored;
      otherwise the cell takes the input's last character and, when the input
      is not empty, focus moves to the next cell if there is one. */
  function HandleChange(otp: seq<string>, index: int, val: string): (r: Edit)
    requires 0 <= index < |otp|
    ensures |r.otp| == |otp|
    ensures !IsDigitString(val) ==> r.otp == otp && r.focus.None?
    ensures IsDigitString(val) ==> r.otp[index] == LastChar(val)
    ensures forall j :: 0 <= j < |otp| && j != index ==> r.otp[j] == otp[j]
    ensures r.focus.Some? <==> IsDigitString(val) && val != "" && index < |otp| - 1
    ensures r.focus.Some? ==> r.focus.value == index + 1
    ensures AllCells(otp) ==> AllCells(r.otp)
  {
    if !IsDigitString(val) then Edit(otp, None)
    else
      var focus := if val != "" && index < |otp| - 1 then Some(index + 1) else None;
      Edit(otp[index := LastChar(val)], focus)
  }

  /** The keys `handleKeyDown` distinguishes. */
  datatype Key = Backspace | ArrowLeft | ArrowRight | OtherKey

  /** `handleKeyDown`: Backspace clears the current cell if it holds a digit,
      else clears the previous cell and focuses it; the arrows only move
      focus, within the cells. */
  function HandleKeyDown(otp: seq<string>, index: int, key: Key): (r: Edit)
    requires 0 <= index < |otp|
    ensures |r.otp| == |otp|
    ensures key != Backspace ==> r.otp == otp
    ensures key == Backspace && otp[index] != "" ==>
              && r.otp[index] == ""
              && (forall j :: 0 <= j < |otp| && j != index ==> r.otp[j] == otp[j])
              && r.focus.None?
    ensures key == Backspace && otp[index] == "" && index > 0 ==>
              && r.otp[index - 1] == ""
              && (forall j :: 0 <= j < |otp| && j != index - 1 ==> r.otp[j] == otp[j])
              && r.focus == Some(index - 1)
    ensures key == Backspace && otp[index] == "" && index == 0 ==> r == Edit(otp, None)
    ensures key == ArrowLeft ==> r.focus == (if index > 0 then Some(index - 1) else None)
    ensures key == ArrowRight ==> r.focus == (if index < |otp| - 1 then Some(index + 1) else None)
    ensures key == OtherKey ==> r == Edit(otp, None)
    ensures AllCells(otp) ==> AllCells(r.otp)
  {
    match key
    case Backspace =>
      if otp[index] != "" then Edit(otp[index := ""], None)
      else if index > 0 then Edit(otp[index - 1 := ""], Some(index - 1))
      else Edit(otp, None)
    case ArrowLeft => Edit(otp, if index > 0 then Some(index - 1) else None)
    case ArrowRight => Edit(otp, if index < |otp| - 1 then Some(index + 1) else None)
    case OtherKey => Edit(otp, None)
  }

  /** `otp.join("")`: the cells concatenated in order. Over well-formed cells
      it is a digit string no longer than the number of cells. */
  function Join(otp: seq<string>): (code: string)
    ensures AllCells(otp) ==> |code| <= |otp| && IsDigitString(code)
    decreases |otp|
  {
    if otp == [] then "" else Join(otp[..|otp| - 1]) + otp[|otp| - 1]
  }

  /** When every cell holds one character, the joined code has one character
      per cell, in cell order. */
  lemma {:induction false} JoinSingletons(otp: seq<string>, code: string)
    requires |otp| == |code|
    requires forall i :: 0 <= i < |otp| ==> otp[i] == [code[i]]
    ensures Join(otp) == code
    decreases |otp|
  {
    if otp != [] {
      var n := |otp| - 1;
      JoinSingletons(otp[..n], code[..n]);
      assert code == code[..n] + [code[n]];
    }
  }

  /** When some cell is empty, the joined code is shorter than six
      characters, so it cannot be a full code. */
  lemma {:induction false} JoinWithEmptyCellIsShort(otp: seq<string>, k: int)
    requires AllCells(otp) && 0 <= k < |otp| && otp[k] == ""
    ensures |Join(otp)| < |otp|
    decreases |otp|
  {
    var n := |otp| - 1;
    assert AllCells(otp[..n]);
    if k < n {
      JoinWithEmptyCellIsShort(otp[..n], k);
    }
  }

  /** Typing `code[i]` into cell i for i = from, from + 1, ...: what a user does
      who types the mailed code digit by digit, following the focus. */
  function TypeFrom(otp: seq<string>, code: string, from: nat): (r: seq<string>)
    requires |code| == |otp| && from <= |otp|
    ensures |r| == |otp|
    decreases |otp| - from
  {
    if from == |otp| then otp
    else TypeFrom(HandleChange(otp, from, [code[from]]).otp, code, from + 1)
  }

  /** Typing leaves the cells before `from` alone and puts each later
      digit of the code into its own cell. */
  lemma {:induction false} TypeFromCells(otp: seq<string>, code: string, from: nat)
    requires |code| == |otp| && from <= |otp| && IsDigitString(code)
    ensures var r := TypeFrom(otp, code, from);
            && (forall j :: 0 <= j < from ==> r[j] == otp[j])
            && (forall j :: from <= j < |otp| ==> r[j] == [code[j]])
    decreases |otp| - from
  {
    if from < |otp| {
      var next := HandleChange(otp, from, [code[from]]).otp;
      assert IsDigitString([code[from]]);
      TypeFromCells(next, code, from + 1);
    }
  }

  /** Typing a six-digit code into the empty buffer yields a well-formed
      buffer whose joined value is that code. */
  lemma TypedCodeJoins(code: string)
    requires IsOtpCode(code)
    ensures WellFormed(TypeFrom(EmptyBuffer(), code, 0))
    ensures Join(TypeFrom(EmptyBuffer(), code, 0)) == code
  {
    var r := TypeFrom(EmptyBuffer(), code, 0);
    TypeFromCells(EmptyBuffer(), code, 0);
    JoinSingletons(r, code);
  }
}
