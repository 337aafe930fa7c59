/**
 * The closed registries of the tracker (scripts/utils.py): the ordered
 * expense categories with their normalised matching keys, the supported
 * years and the twelve month names with their numbers.
 */
module Registry {
  import opened Text

  /** The canonical categories, in display and sorting order. */
  const Categories: seq<string> := ["Home", "Food", "Leisure", "To myself", "Travel", "Education", "Others"]

  /** Python's `str.lower` on one character (ASCII letters only). */
  function LowerChar(c: char): (l: char)
    ensures !('A' <= l <= 'Z')
    ensures !('A' <= c <= 'Z') ==> l == c
  {
    if 'A' <= c <= 'Z' then (c as int - 'A' as int + 'a' as int) as char else c
  }

  /** `s.lower()`. */
  function Lower(s: string): (r: string)
    ensures |r| == |s|
    ensures forall i :: 0 <= i < |s| ==> r[i] == LowerChar(s[i])
  {
    if s == [] then [] else [LowerChar(s[0])] + Lower(s[1..])
  }

  /** `s.replace(' ', '')`. */
  function RemoveSpaces(s: string): (r: string)
    ensures ' ' !in r
  {
    if s == [] then [] else if s[0] == ' ' then RemoveSpaces(s[1..]) else [s[0]] + RemoveSpaces(s[1..])
  }

  /** The matching key of a category text: lower-cased, every space removed. */
  function Normalize(s: string): string {
    RemoveSpaces(Lower(s))
  }

  /** `DICT_CATEGORIES_NAMETOLOWER`: canonical name to key. */
  function NameToLower(): map<string, string> {
    map c | c in Categories :: Normalize(c)
  }

  /** `DICT_CATEGORIES_LOWERTONAME`, built by swapping the pairs of `NameToLower`. */
  function LowerToName(): map<string, string> {
    CategoryKeysDistinct();
    map c | c in NameToLower() :: NameToLower()[c] := c
  }

  /** The keys as written out. */
  const CategoryKeys: seq<string> := ["home", "food", "leisure", "tomyself", "travel", "education", "others"]

  /** `[str(y) for y in range(lo, hi)]`. */
  function YearRange(lo: nat, hi: nat): (r: seq<string>)
    ensures |r| == if lo <= hi then hi - lo else 0
    ensures forall i :: 0 <= i < |r| ==> r[i] == NatToString(lo + i)
    decreases hi - lo
  {
    if lo >= hi then [] else [NatToString(lo)] + YearRange(lo + 1, hi)
  }

  /** `YEARS`. */
  const Years: seq<string> := YearRange(2024, 2031)

  const Months: seq<string> := [
    "January", "February", "March", "April", "May", "June", "July", "August",
    "September", "October", "November", "December"
  ]

  /** `DICT_MONTHS_NAMETONUMBER`. */
  function MonthNameToNumber(): map<string, int> {
    MonthsDistinct();
    map i | 0 <= i < |Months| :: Months[i] := i + 1
  }

  /** `DICT_MONTHS_NUMBERTONAME`: the number of `Months[i]` is `i + 1`. */
  function MonthNumberToName(): map<int, string> {
    map n | 1 <= n <= |Months| :: MonthName(n)
  }

  /** The name of month number `n` (1 for January). */
  function MonthName(n: int): string
    requires 1 <= n <= |Months|
  {
    Months[n - 1]
  }

  /** Index of `x` in `s`, like `list.index`, or `None` (the ValueError) when absent. */
  function IndexOf(s: seq<string>, x: string): (r: Wrappers.Option<nat>)
    ensures r.Some? ==> r.value < |s| && s[r.value] == x && forall j :: 0 <= j < r.value ==> s[j] != x
    ensures r.None? <==> x !in s
  {
    if s == [] then Wrappers.None
    else if s[0] == x then Wrappers.Some(0)
    else match IndexOf(s[1..], x)
      case None => Wrappers.None
      case Some(k) => Wrappers.Some(k + 1)
  }

  // ---------------------------------------------------------------------
  // Properties of the registries
  // ---------------------------------------------------------------------

  /** Seven distinct categories, in the fixed order. */
  lemma CategoriesDistinct()
    ensures |Categories| == 7
    ensures forall i, j :: 0 <= i < j < |Categories| ==> Categories[i] != Categories[j]
  {
  }

  /** `k` is the lower-case form of the space-free word `w`. */
  predicate IsWordKey(w: string, k: string) {
    |w| == |k| && forall i :: 0 <= i < |w| ==> w[i] != ' ' && k[i] == LowerChar(w[i])
  }

  /** A word without spaces has its lower-case form as key. */
  lemma KeyOfWord(w: string, k: string)
    requires IsWordKey(w, k)
    ensures Normalize(w) == k
  {
    assert Lower(w) == k;
    assert ' ' !in k by {
      forall i | 0 <= i < |k| ensures k[i] != ' ' {
        assert w[i] != ' ';
      }
    }
    RemoveSpacesOfSpaceFree(k);
  }

  lemma HomeKey() ensures Normalize("Home") == "home" { KeyOfWord("Home", "home"); }
  lemma FoodKey() ensures Normalize("Food") == "food" { KeyOfWord("Food", "food"); }
  lemma LeisureKey() ensures Normalize("Leisure") == "leisure" { KeyOfWord("Leisure", "leisure"); }
  lemma TravelKey() ensures Normalize("Travel") == "travel" { KeyOfWord("Travel", "travel"); }
  lemma EducationKey() ensures Normalize("Education") == "education" { KeyOfWord("Education", "education"); }
  lemma OthersKey() ensures Normalize("Others") == "others" { KeyOfWord("Others", "others"); }

  /** Two words joined by a space have the two keys side by side as key. */
  lemma KeyOfWords(a: string, b: string, ka: string, kb: string)
    requires IsWordKey(a, ka) && IsWordKey(b, kb)
    ensures Normalize(a + " " + b) == ka + kb
  {
    LowerDistributes(a + " ", b);
    LowerDistributes(a, " ");
    assert Lower(a) == ka && Lower(b) == kb;
    assert ' ' !in ka by {
      forall i | 0 <= i < |ka| ensures ka[i] != ' ' {
        assert a[i] != ' ';
      }
    }
    assert ' ' !in kb by {
      forall i | 0 <= i < |kb| ensures kb[i] != ' ' {
        assert b[i] != ' ';
      }
    }
    assert Lower(" ") == " ";
    RemoveSpacesWords(ka, kb);
  }

  /** The one category with a space loses it. */
  lemma ToMyselfKey() ensures Normalize("To myself") == "tomyself"
  {
    ToMyselfWords();
    ToMyselfText();
    KeyOfWords("To", "myself", "to", "myself");
  }

  lemma ToMyselfWords() ensures IsWordKey("To", "to") && IsWordKey("myself", "myself") {}

  lemma ToMyselfText() ensures "To" + " " + "myself" == "To myself" && "to" + "myself" == "tomyself" {}

  /** Each category's key is its lower-cased, space-free name ("To myself" has key "tomyself"). */
  lemma CategoryKeysValues()
    ensures forall i :: 0 <= i < |Categories| ==> Normalize(Categories[i]) == CategoryKeys[i]
  {
    forall i | 0 <= i < |Categories| ensures Normalize(Categories[i]) == CategoryKeys[i] {
      CategoryKeyAt(i);
    }
  }

  lemma CategoryKeyAt(i: int)
    requires 0 <= i < |Categories|
    ensures Normalize(Categories[i]) == CategoryKeys[i]
  {
    if i < 4 {
      if i == 0 { HomeKey(); } else if i == 1 { FoodKey(); } else if i == 2 { LeisureKey(); } else { ToMyselfKey(); }
    } else {
      if i == 4 { TravelKey(); } else if i == 5 { EducationKey(); } else { OthersKey(); }
    }
  }

  /** A number that tells the keys apart: their length and first letter. */
  function KeyCode(k: string): int
    requires k != []
  {
    |k| * 128 + k[0] as int
  }

  lemma CategoryKeyCodes()
    ensures forall i :: 0 <= i < |CategoryKeys| ==> CategoryKeys[i] != [] && KeyCode(CategoryKeys[i]) == [616, 614, 1004, 1140, 884, 1253, 879][i]
  {
  }

  /** The keys are pairwise different. */
  lemma CategoryKeysUnique(i: int, j: int)
    requires 0 <= i < |CategoryKeys| && 0 <= j < |CategoryKeys| && CategoryKeys[i] == CategoryKeys[j]
    ensures i == j
  {
    CategoryKeyCodes();
    var codes := [616, 614, 1004, 1140, 884, 1253, 879];
    assert codes[i] == codes[j];
  }

  /** No two categories share a key. */
  lemma CategoryKeysDistinctAt()
    ensures forall i, j :: 0 <= i < |Categories| && 0 <= j < |Categories| && Normalize(Categories[i]) == Normalize(Categories[j]) ==> i == j
  {
    CategoryKeysValues();
    forall i, j | 0 <= i < |Categories| && 0 <= j < |Categories| && Normalize(Categories[i]) == Normalize(Categories[j])
      ensures i == j
    {
      CategoryKeysUnique(i, j);
    }
  }

  lemma CategoryKeysDistinct()
    ensures forall c1, c2 :: c1 in Categories && c2 in Categories && Normalize(c1) == Normalize(c2) ==> c1 == c2
  {
    CategoryKeysDistinctAt();
    forall c1, c2 | c1 in Categories && c2 in Categories && Normalize(c1) == Normalize(c2) ensures c1 == c2 {
      var i := PositionOf(Categories, c1);
      var j := PositionOf(Categories, c2);
    }
  }

  lemma PositionOf(s: seq<string>, x: string) returns (i: nat)
    requires x in s
    ensures i < |s| && s[i] == x
  {
    i :| i < |s| && s[i] == x;
  }

  /** The two category dictionaries are inverse bijections between the names and the keys, pairing them by position. */
  lemma CategoryDictsInverse()
    ensures forall c :: c in NameToLower() <==> c in Categories
    ensures forall k :: k in LowerToName() <==> k in CategoryKeys
    ensures forall i :: 0 <= i < |Categories| ==> NameToLower()[Categories[i]] == CategoryKeys[i] && LowerToName()[CategoryKeys[i]] == Categories[i]
    ensures forall c :: c in NameToLower() ==> NameToLower()[c] in LowerToName() && LowerToName()[NameToLower()[c]] == c
    ensures forall k :: k in LowerToName() ==> LowerToName()[k] in NameToLower() && NameToLower()[LowerToName()[k]] == k
  {
    CategoryKeysValues();
    CategoryKeysDistinct();
    forall i | 0 <= i < |Categories| ensures CategoryKeys[i] in LowerToName() && LowerToName()[CategoryKeys[i]] == Categories[i] {
      assert Categories[i] in NameToLower();
    }
    forall k | k in LowerToName() ensures k in CategoryKeys {
      var c :| c in NameToLower() && NameToLower()[c] == k;
      var i := PositionOf(Categories, c);
    }
    forall k | k in CategoryKeys ensures k in LowerToName() {
      var i := PositionOf(CategoryKeys, k);
    }
    forall c | c in NameToLower() ensures NameToLower()[c] in LowerToName() && LowerToName()[NameToLower()[c]] == c {
      var i := PositionOf(Categories, c);
    }
    forall k | k in LowerToName() ensures LowerToName()[k] in NameToLower() && NameToLower()[LowerToName()[k]] == k {
      var i := PositionOf(CategoryKeys, k);
    }
  }

  /** Lower-casing is idempotent. */
  lemma LowerIdempotent(s: string)
    ensures Lower(Lower(s)) == Lower(s)
  {
  }

  lemma {:induction false} LowerDistributes(a: string, b: string)
    ensures Lower(a + b) == Lower(a) + Lower(b)
  {
    var l, r := Lower(a + b), Lower(a) + Lower(b);
    assert |l| == |r|;
    forall i | 0 <= i < |l| ensures l[i] == r[i] {
      if i < |a| {
        assert (a + b)[i] == a[i];
      } else {
        assert (a + b)[i] == b[i - |a|];
      }
    }
  }

  /** Removing spaces keeps a string in lower case. */
  lemma {:induction false} RemoveSpacesOfLower(s: string)
    requires forall i :: 0 <= i < |s| ==> !('A' <= s[i] <= 'Z')
    ensures Lower(RemoveSpaces(s)) == RemoveSpaces(s)
    decreases |s|
  {
    if s != [] {
      RemoveSpacesOfLower(s[1..]);
      if s[0] != ' ' {
        assert RemoveSpaces(s) == [s[0]] + RemoveSpaces(s[1..]);
        assert Lower(RemoveSpaces(s))[1..] == Lower(RemoveSpaces(s[1..]));
      }
    }
  }

  lemma RemoveSpacesHead(s: string)
    requires s != [] && s[0] != ' '
    ensures RemoveSpaces(s) != [] && RemoveSpaces(s)[0] == s[0]
  {
  }

  /** A space-free string is its own `replace(' ', '')`. */
  lemma {:induction false} RemoveSpacesOfSpaceFree(s: string)
    requires ' ' !in s
    ensures RemoveSpaces(s) == s
    decreases |s|
  {
    if s != [] {
      assert s[1..] == s[1..];
      assert ' ' !in s[1..] by {
        forall i | 0 <= i < |s[1..]| ensures s[1..][i] != ' ' {
          assert s[1..][i] == s[i + 1];
        }
      }
      RemoveSpacesOfSpaceFree(s[1..]);
      assert [s[0]] + s[1..] == s;
    }
  }

  /** `replace(' ', '')` works piece by piece. */
  lemma {:induction false} RemoveSpacesAppend(a: string, b: string)
    ensures RemoveSpaces(a + b) == RemoveSpaces(a) + RemoveSpaces(b)
    decreases |a|
  {
    if a != [] {
      assert (a + b)[1..] == a[1..] + b;
      RemoveSpacesAppend(a[1..], b);
    } else {
      assert a + b == b;
    }
  }

  lemma RemoveSpacesAround(a: string, b: string)
    ensures RemoveSpaces(a + " " + b) == RemoveSpaces(a + " ") + RemoveSpaces(b)
    ensures RemoveSpaces(a + " ") == RemoveSpaces(a) + RemoveSpaces(" ")
  {
    RemoveSpacesAppend(a + " ", b);
    RemoveSpacesAppend(a, " ");
  }

  lemma RemoveSpacesOfSpace()
    ensures RemoveSpaces(" ") == []
  {
  }

  /** Two space-free words joined by a space lose only that space. */
  lemma RemoveSpacesWords(a: string, b: string)
    requires ' ' !in a && ' ' !in b
    ensures RemoveSpaces(a + " " + b) == a + b
  {
    RemoveSpacesAround(a, b);
    RemoveSpacesOfSpace();
    RemoveSpacesOfSpaceFree(a);
    RemoveSpacesOfSpaceFree(b);
    assert RemoveSpaces(a + " ") == a + [];
    assert a + [] == a;
  }

  /** A key is its own normal form: normalising twice is normalising once. */
  lemma NormalizeIdempotent(s: string)
    ensures Normalize(Normalize(s)) == Normalize(s)
  {
    var l := Lower(s);
    RemoveSpacesOfLower(l);
    RemoveSpacesOfSpaceFree(RemoveSpaces(l));
  }

  lemma YearText(i: nat)
    requires i < 7
    ensures Years[i] == ["2024", "2025", "2026", "2027", "2028", "2029", "2030"][i]
  {
    assert Years[i] == NatToString(2024 + i);
    YearString(2024 + i);
  }

  lemma YearString(n: nat)
    requires 2024 <= n <= 2030
    ensures NatToString(n) == ["2024", "2025", "2026", "2027", "2028", "2029", "2030"][n - 2024]
  {
    NatToStringFour(n);
    var c, d := n / 10 % 10, n % 10;
    assert n / 1000 == 2 && n / 100 % 10 == 0 && n - 2024 == 10 * c + d - 24;
    assert NatToString(n) == ['2', '0', DigitChar(c), DigitChar(d)];
    YearLastDigits(c, d);
  }

  lemma YearLastDigits(c: nat, d: nat)
    requires c < 10 && d < 10 && 24 <= 10 * c + d <= 30
    ensures ['2', '0', DigitChar(c), DigitChar(d)] == ["2024", "2025", "2026", "2027", "2028", "2029", "2030"][10 * c + d - 24]
  {
  }

  /** `YEARS` is "2024" to "2030". */
  lemma YearsSpan()
    ensures Years == ["2024", "2025", "2026", "2027", "2028", "2029", "2030"]
  {
    forall i | 0 <= i < 7 ensures Years[i] == ["2024", "2025", "2026", "2027", "2028", "2029", "2030"][i] {
      YearText(i);
    }
  }

  /** Seven distinct years whose values increase one by one from 2024. */
  lemma YearsIncreasing()
    ensures |Years| == 7
    ensures forall i :: 0 <= i < |Years| ==> PyInt(Years[i]) == Wrappers.Some(2024 + i)
    ensures forall i, j :: 0 <= i < j < |Years| ==> Years[i] != Years[j]
  {
    forall i | 0 <= i < |Years| ensures PyInt(Years[i]) == Wrappers.Some(2024 + i) {
      YearValue(i);
    }
    forall i, j | 0 <= i < j < |Years| ensures Years[i] != Years[j] {
      YearValue(i);
      YearValue(j);
    }
  }

  lemma YearValue(i: nat)
    requires i < 7
    ensures PyInt(Years[i]) == Wrappers.Some(2024 + i)
  {
    var n := 2024 + i;
    assert Years[i] == NatToString(n);
    PyIntOfNatToString(n);
  }

  lemma MonthsDistinct()
    ensures |Months| == 12
    ensures forall i, j :: 0 <= i < j < |Months| ==> Months[i] != Months[j]
  {
  }

  lemma MonthAt(i: int)
    requires 0 <= i < 12
    ensures i + 1 in MonthNumberToName() && MonthNumberToName()[i + 1] == Months[i]
    ensures Months[i] in MonthNameToNumber() && MonthNameToNumber()[Months[i]] == i + 1
  {
    MonthsDistinct();
  }

  lemma MonthPosition(m: string) returns (i: int)
    requires m in MonthNameToNumber()
    ensures 0 <= i < 12 && Months[i] == m
  {
    i :| 0 <= i < |Months| && Months[i] == m;
  }

  /** The month dictionaries are inverse bijections between `MONTHS` and 1..12 that follow the list order. */
  lemma MonthDictsInverse()
    ensures forall m :: m in MonthNameToNumber() <==> m in Months
    ensures forall n :: n in MonthNumberToName() <==> 1 <= n <= 12
    ensures forall i :: 0 <= i < 12 ==> MonthNameToNumber()[Months[i]] == i + 1 && MonthNumberToName()[i + 1] == Months[i]
    ensures forall m :: m in MonthNameToNumber() ==> MonthNameToNumber()[m] in MonthNumberToName() && MonthNumberToName()[MonthNameToNumber()[m]] == m
    ensures forall n :: n in MonthNumberToName() ==> MonthNumberToName()[n] in MonthNameToNumber() && MonthNameToNumber()[MonthNumberToName()[n]] == n
  {
    forall i | 0 <= i < 12 ensures MonthNameToNumber()[Months[i]] == i + 1 && MonthNumberToName()[i + 1] == Months[i] {
      MonthAt(i);
    }
    forall m | m in MonthNameToNumber() ensures MonthNameToNumber()[m] in MonthNumberToName() && MonthNumberToName()[MonthNameToNumber()[m]] == m {
      var i := MonthPosition(m);
      MonthAt(i);
    }
    forall n | n in MonthNumberToName() ensures MonthNumberToName()[n] in MonthNameToNumber() && MonthNameToNumber()[MonthNumberToName()[n]] == n {
      MonthAt(n - 1);
    }
    forall m | m in Months ensures m in MonthNameToNumber() {
      var i :| 0 <= i < 12 && Months[i] == m;
      MonthAt(i);
    }
  }
}
