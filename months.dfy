/** getMonthName: a zero-based lookup in a twelve-entry table with bounds checking. */
module Months {
  import opened Wrappers

  /** std::out_of_range, thrown by std::array::at for an index outside the table. */
  datatype MonthError = OutOfRange(month: int)

  const MonthNames: seq<string> := [
    "January", "February", "March", "April", "May", "June",
    "July", "August", "September", "October", "November", "December"
  ]

  /** The first position of name in names at or after i, if any. */
  function IndexFrom(names: seq<string>, name: string, i: nat): (r: Option<nat>)
    requires i <= |names|
    ensures r.Some? ==> i <= r.value < |names| && names[r.value] == name
    ensures r.Some? ==> forall j :: i <= j < r.value ==> names[j] != name
    ensures r.None? ==> forall j :: i <= j < |names| ==> names[j] != name
    decreases |names| - i
  {
    if i == |names| then None
    else if names[i] == name then Some(i)
    else IndexFrom(names, name, i + 1)
  }

  /** Inverse of GetMonthName: the zero-based number of a month name, if any. */
  function MonthNumber(name: string): Option<nat> {
    IndexFrom(MonthNames, name, 0)
  }

  /** getMonthName: the table entry for 0 <= month < 12, std::out_of_range otherwise. */
  function GetMonthName(month: int): (r: Result<string, MonthError>)
    ensures r.Success? <==> 0 <= month < 12
    ensures r.Failure? ==> r.error == OutOfRange(month)
    ensures month == 0 ==> r == Success("January")
    ensures month == 11 ==> r == Success("December")
  {
    if 0 <= month < |MonthNames| then Success(MonthNames[month]) else Failure(OutOfRange(month))
  }

  /** The month names are pairwise distinct. */
  lemma MonthNamesDistinct()
    ensures forall i, j :: 0 <= i < j < |MonthNames| ==> MonthNames[i] != MonthNames[j]
  {
    forall i, j | 0 <= i < j < |MonthNames|
      ensures MonthNames[i] != MonthNames[j]
    {
      var a, b := MonthNames[i], MonthNames[j];
      assert |a| != |b| || a[0] != b[0] || a[2] != b[2];
    }
  }

  /** Reading a month's name back gives the month: the name identifies it. */
  lemma MonthNameRoundTrip(month: int)
    requires 0 <= month < 12
    ensures GetMonthName(month).Success?
    ensures MonthNumber(GetMonthName(month).value) == Some(month)
  {
    MonthNamesDistinct();
  }
}
