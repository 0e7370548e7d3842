/**
 * `school_dict` of assignment3/school_data.py and the identifier resolution
 * of its `main`.  A Python dict keeps insertion order, so the dictionary is
 * given as its `keys()` and `values()` lists; the position of a code in
 * `keys()` is the school's row in the tensor.
 */
module SchoolDirectory {
  import opened Wrappers
  import opened PythonInt

  /** `list(school_dict.keys())`. */
  const Codes: seq<int> := [
    1224, 1679, 9626, 9806, 9813, 9815, 9816, 9823, 9825, 9826,
    9829, 9830, 9836, 9847, 9850, 9856, 9857, 9858, 9860, 9865]

  /** `list(school_dict.values())`, in the same order. */
  const Names: seq<string> := [
    "Centennial High School",
    "Robert Thirsk School",
    "Louise Dean School",
    "Queen Elizabeth High School",
    "Forest Lawn High School",
    "Crescent Heights High School",
    "Western Canada High School",
    "Central Memorial High School",
    "James Fowler High School",
    "Ernest Manning High School",
    "William Aberhart High School",
    "National Sport School",
    "Henry Wise Wood High School",
    "Bowness High School",
    "Lord Beaverbrook High School",
    "Jack James High School",
    "Sir Winston Churchill High School",
    "Dr. E. P. Scarlett High School",
    "John G Diefenbaker High School",
    "Lester B. Pearson High School"]

  lemma DirectoryShape()
    ensures |Codes| == 20 && |Names| == 20
    ensures forall i, j :: 0 <= i < j < 20 ==> Codes[i] != Codes[j]
    ensures forall i, j :: 0 <= i < j < 20 ==> Names[i] != Names[j]
    ensures forall i :: 0 <= i < 20 ==> 0 <= Codes[i]
  {
  }

  /** No school name starts with a digit, so no typed number is a name. */
  lemma NumberIsNoName(n: nat)
    ensures DecimalString(n) !in Names
  {
    assert forall i :: 0 <= i < |Names| ==> 'A' <= Names[i][0] <= 'Z';
    assert IsDigit(DecimalString(n)[0]);
  }

  /** `list.index`: the first position of x. */
  function IndexOf<T(==)>(s: seq<T>, x: T): (i: nat)
    requires x in s
    ensures i < |s| && s[i] == x
    ensures forall j :: 0 <= j < i ==> s[j] != x
  {
    if s[0] == x then 0 else 1 + IndexOf(s[1..], x)
  }

  /** `school_dict[code]`. */
  function NameOf(code: int): (name: string)
    requires code in Codes
    ensures name == Names[IndexOf(Codes, code)]
  {
    DirectoryShape();
    Names[IndexOf(Codes, code)]
  }

  /**
   * Lines 251-260: an input equal to a school name resolves to the code
   * stored with that name; otherwise `int(input)` must succeed and be a key.
   * None is the ValueError that makes `main` print its message and prompt again.
   */
  function Resolve(input: string): (r: Option<int>)
    ensures r.Some? ==> r.value in Codes
    ensures input in Names ==> r.Some? && NameOf(r.value) == input
    ensures input !in Names ==>
      r == if ParseInt(input).Some? && ParseInt(input).value in Codes then ParseInt(input) else None
  {
    DirectoryShape();
    if input in Names then Some(Codes[IndexOf(Names, input)])
    else
      match ParseInt(input)
      case Some(n) => if n in Codes then Some(n) else None
      case None => None
  }

  /**
   * Resolving a school by its name or by its code (as typed, `str(code)`)
   * gives the same code, and so the same row and the same name.
   */
  lemma {:induction false} NameAndCodeAgree(i: nat)
    requires i < 20
    ensures Resolve(Names[i]) == Some(Codes[i])
    ensures Resolve(DecimalString(Codes[i])) == Some(Codes[i])
    ensures IndexOf(Codes, Codes[i]) == i && NameOf(Codes[i]) == Names[i]
  {
    DirectoryShape();
    ParseDecimalString(Codes[i]);
    NumberIsNoName(Codes[i]);
  }

  /**
   * The `while True` prompt loop (lines 245-263) over a script of input
   * lines, for a given way of resolving a line: it stops at the first line
   * that resolves.  None means the script ran out while the program was
   * still prompting.  `main` runs it with `Resolve`.
   */
  method ReadIdentifier(lines: seq<string>, resolve: string -> Option<int>)
    returns (code: Option<int>, used: nat)
    ensures used <= |lines|
    ensures forall k :: 0 <= k < used ==> resolve(lines[k]).None?
    ensures code.Some? ==> used < |lines| && resolve(lines[used]) == code
    ensures code.None? ==> used == |lines|
  {
    used := 0;
    code := None;
    while used < |lines|
      invariant used <= |lines|
      invariant forall k :: 0 <= k < used ==> resolve(lines[k]).None?
    {
      var r := resolve(lines[used]);
      if r.Some? {
        code := r;
        return;
      }
      used := used + 1;
    }
  }
}
