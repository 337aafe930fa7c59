/**
 * The display logic of scripts/UI.py over the modelled table: the two
 * sorts of the expenses window, its column printer, the lookup behind
 * its delete buttons and its pair of sort buttons; the message the date
 * window builds from its inputs; the per-category totals of the date
 * window's bar chart; the month/year guard of the main window and the
 * label of its summary chart. Widgets, signals, timers and drawing are
 * not modelled; the texts of the input widgets are fields, and "today"
 * is a parameter.
 */
module Interface {
  import opened Wrappers
  import opened Text
  import opened Registry
  import StableSort
  import opened InputParser
  import opened Expenses

  // ---------------------------------------------------------------------
  // sort_items
  // ---------------------------------------------------------------------

  /** The sort key `CATEGORIES_AVAILABLE.index(x[1])` where it is defined. */
  function CategoryKey(it: Item): int {
    match IndexOf(Categories, it.category)
    case Some(k) => k
    case None => 0
  }

  /** `CATEGORIES_AVAILABLE.index(x[1])` does not raise. */
  predicate CategoryIsKnown(it: Item) {
    it.category in Categories
  }

  /**
   * What `sort_items(kind)` leaves in `self.items`, or the ValueError its
   * key function raises, in which case `self.items` is not reassigned.
   */
  function SortedItems(items: seq<Item>, kind: string): Result<seq<Item>> {
    if kind == "date" then
      if All(items, DayIsInt) then Ok(StableSort.SortBy(items, DayKey)) else Err(ValueError)
    else if kind == "category" then
      if All(items, CategoryIsKnown) then Ok(StableSort.SortBy(items, CategoryKey)) else Err(ValueError)
    else Ok(items)
  }

  /** A permutation keeps a property that holds of every element. */
  lemma AllOfPermutation<T>(s: seq<T>, t: seq<T>, p: T -> bool)
    requires multiset(s) == multiset(t) && All(s, p)
    ensures All(t, p)
  {
    forall i | 0 <= i < |t| ensures p(t[i]) {
      assert t[i] in multiset(s);
      var k :| 0 <= k < |s| && s[k] == t[i];
    }
  }

  /**
   * Sorting by date raises exactly when some day is not an integer;
   * otherwise the items are permuted into ascending `int(day)` order,
   * items of equal day keeping their order.
   */
  lemma SortByDateSpec(items: seq<Item>)
    ensures SortedItems(items, "date").Ok? <==> forall i :: 0 <= i < |items| ==> PyInt(items[i].day).Some?
    ensures SortedItems(items, "date").Ok? ==>
              var r := SortedItems(items, "date").value;
              StableSort.IsStableSortOf(r, items, DayKey) && multiset(r) == multiset(items)
              && (forall i :: 0 <= i < |r| ==> PyInt(r[i].day).Some?)
              && forall i, j :: 0 <= i < j < |r| ==> PyInt(r[i].day).value <= PyInt(r[j].day).value
  {
    if All(items, DayIsInt) {
      var r := StableSort.SortBy(items, DayKey);
      StableSort.SortByIsStableSort(items, DayKey);
      AllOfPermutation(items, r, DayIsInt);
    }
  }

  /**
   * Sorting by category raises exactly when some category is not one of
   * `CATEGORIES_AVAILABLE`; otherwise the items are permuted into the
   * order of that list, items of the same category keeping their order.
   */
  lemma SortByCategorySpec(items: seq<Item>)
    ensures SortedItems(items, "category").Ok? <==> forall i :: 0 <= i < |items| ==> items[i].category in Categories
    ensures SortedItems(items, "category").Ok? ==>
              var r := SortedItems(items, "category").value;
              StableSort.IsStableSortOf(r, items, CategoryKey) && multiset(r) == multiset(items)
              && (forall i :: 0 <= i < |r| ==> r[i].category in Categories)
              && forall i, j :: 0 <= i < j < |r| ==>
                   IndexOf(Categories, r[i].category).value <= IndexOf(Categories, r[j].category).value
  {
    if All(items, CategoryIsKnown) {
      var r := StableSort.SortBy(items, CategoryKey);
      StableSort.SortByIsStableSort(items, CategoryKey);
      AllOfPermutation(items, r, CategoryIsKnown);
    }
  }

  /** Any other kind leaves the items as they are. */
  lemma SortOtherSpec(items: seq<Item>, kind: string)
    requires kind != "date" && kind != "category"
    ensures SortedItems(items, kind) == Ok(items)
  {
  }

  /** Sorting twice the same way is sorting once. */
  lemma SortIdempotent(items: seq<Item>, kind: string)
    requires SortedItems(items, kind).Ok?
    ensures SortedItems(SortedItems(items, kind).value, kind) == SortedItems(items, kind)
  {
    var r := SortedItems(items, kind).value;
    if kind == "date" {
      SortByDateSpec(items);
      StableSort.SortBySorted(r, DayKey);
    } else if kind == "category" {
      SortByCategorySpec(items);
      StableSort.SortBySorted(r, CategoryKey);
    }
  }

  /** The items the window opens with are already in date order: the first date sort changes nothing. */
  lemma OpenedInDateOrder(rows: seq<Row>, month: string, year: string)
    requires ElementsPeriod(rows, month, year).Ok?
    ensures SortedItems(ElementsPeriod(rows, month, year).value, "date") == ElementsPeriod(rows, month, year)
  {
    var items := ProjectAll(Select(rows, month, year));
    ElementsPeriodSorted(rows, month, year);
    AllOfPermutation(items, ElementsPeriod(rows, month, year).value, DayIsInt);
    StableSort.SortBySorted(ElementsPeriod(rows, month, year).value, DayKey);
  }

  // ---------------------------------------------------------------------
  // make_printing_nice
  // ---------------------------------------------------------------------

  const DayColumns: nat := 5
  const CategoryColumns: nat := 15
  const ValueColumns: nat := 10

  /** The room a field takes on a line: its column width, or its own length when it is longer. */
  function Room(field: string, columns: nat): nat {
    if |field| < columns then columns else |field|
  }

  /** `field + " " * (columns - len(field))`. */
  function Column(field: string, columns: nat): string {
    field + Spaces(columns - |field|)
  }

  /** One printed line: day, category and value each padded to their column, then the description. */
  function PrintLine(it: Item): string {
    Column(it.day, DayColumns) + Column(it.category, CategoryColumns) + Column(it.value, ValueColumns) + it.description
  }

  /** `items_print` for `items`. */
  function PrintLines(items: seq<Item>): seq<string> {
    seq(|items|, i requires 0 <= i < |items| => PrintLine(items[i]))
  }

  /** A padded column holds the whole field (never cut, however long), then spaces up to its room. */
  lemma ColumnShape(field: string, columns: nat)
    ensures |Column(field, columns)| == Room(field, columns)
    ensures Column(field, columns)[..|field|] == field
    ensures forall k :: |field| <= k < |Column(field, columns)| ==> Column(field, columns)[k] == ' '
  {
  }

  /** Where the four parts of `d + e + f + g` sit. */
  lemma ConcatParts<T>(d: seq<T>, e: seq<T>, f: seq<T>, g: seq<T>)
    ensures var s := d + e + f + g;
      s[..|d|] == d && s[|d|..|d| + |e|] == e && s[|d| + |e|..|d| + |e| + |f|] == f && s[|d| + |e| + |f|..] == g
  {
  }

  /**
   * The layout of a printed line: the padded day, category and value
   * columns, each starting where the room of the previous one ends, then
   * the description.
   */
  lemma PrintLineLayout(it: Item)
    ensures var line := PrintLine(it);
      var a := Room(it.day, DayColumns);
      var b := a + Room(it.category, CategoryColumns);
      var c := b + Room(it.value, ValueColumns);
      |line| == c + |it.description|
      && line[..a] == Column(it.day, DayColumns) && line[a..b] == Column(it.category, CategoryColumns)
      && line[b..c] == Column(it.value, ValueColumns) && line[c..] == it.description
  {
    ColumnShape(it.day, DayColumns);
    ColumnShape(it.category, CategoryColumns);
    ColumnShape(it.value, ValueColumns);
    ConcatParts(Column(it.day, DayColumns), Column(it.category, CategoryColumns), Column(it.value, ValueColumns), it.description);
  }

  /** A field that fits its column, is not empty and does not end in whitespace. */
  predicate Fits(field: string, columns: nat) {
    0 < |field| <= columns && !IsSpace(field[|field| - 1])
  }

  /** An item whose day, category and value all fit their columns. */
  predicate Columnar(it: Item) {
    Fits(it.day, DayColumns) && Fits(it.category, CategoryColumns) && Fits(it.value, ValueColumns)
  }

  /** Every registry category fits the category column. */
  lemma CategoriesFit()
    ensures forall c :: c in Categories ==> Fits(c, CategoryColumns)
  {
  }

  /** A fitting field is what is left of its column once trailing whitespace is cut. */
  lemma ColumnTrimmed(field: string, columns: nat)
    requires Fits(field, columns)
    ensures TrimRight(Column(field, columns)) == field
  {
    TrimRightSuffix(field, Spaces(columns - |field|));
  }

  /** Two fitting fields with the same column are the same field. */
  lemma SameColumn(f: string, g: string, columns: nat)
    requires Fits(f, columns) && Fits(g, columns) && Column(f, columns) == Column(g, columns)
    ensures f == g
  {
    ColumnTrimmed(f, columns);
    ColumnTrimmed(g, columns);
  }

  /** Items whose fields fit their columns print to different lines, so a line names its item. */
  lemma PrintLineInjective(x: Item, y: Item)
    requires Columnar(x) && Columnar(y)
    requires PrintLine(x) == PrintLine(y)
    ensures x == y
  {
    var line := PrintLine(x);
    PrintLineLayout(x);
    PrintLineLayout(y);
    assert Column(x.day, DayColumns) == line[..5] == Column(y.day, DayColumns);
    assert Column(x.category, CategoryColumns) == line[5..20] == Column(y.category, CategoryColumns);
    assert Column(x.value, ValueColumns) == line[20..30] == Column(y.value, ValueColumns);
    SameColumn(x.day, y.day, DayColumns);
    SameColumn(x.category, y.category, CategoryColumns);
    SameColumn(x.value, y.value, ValueColumns);
  }

  /** The loop of `make_printing_nice`: one line per item, in the same order. */
  method MakePrintingNice(items: seq<Item>) returns (lines: seq<string>)
    ensures |lines| == |items|
    ensures forall i :: 0 <= i < |items| ==> lines[i] == PrintLine(items[i])
  {
    lines := [];
    for i := 0 to |items|
      invariant |lines| == i
      invariant forall k :: 0 <= k < i ==> lines[k] == PrintLine(items[k])
    {
      var it := items[i];
      var line := Column(it.day, DayColumns);
      line := line + Column(it.category, CategoryColumns);
      line := line + Column(it.value, ValueColumns);
      line := line + it.description;
      lines := lines + [line];
    }
  }

  // ---------------------------------------------------------------------
  // delete_item
  // ---------------------------------------------------------------------

  /** The row `delete_entry(self.month, self.year, *item)` names. */
  function RowOf(month: string, year: string, it: Item): Row {
    Row(month, year, it.day, it.category, it.value, it.description)
  }

  /**
   * When every item fits its columns, the first printed line equal to the
   * line of `items[k]` belongs to an item equal to `items[k]`: clicking
   * the delete button of an item deletes that item.
   */
  lemma DeleteFindsClicked(items: seq<Item>, k: nat)
    requires k < |items|
    requires forall i :: 0 <= i < |items| ==> Columnar(items[i])
    ensures IndexOf(PrintLines(items), PrintLine(items[k])).Some?
    ensures items[IndexOf(PrintLines(items), PrintLine(items[k])).value] == items[k]
  {
    var lines := PrintLines(items);
    assert lines[k] == PrintLine(items[k]);
    var j := IndexOf(lines, PrintLine(items[k])).value;
    PrintLineInjective(items[j], items[k]);
  }

  /** The search loop of `delete_item`: the first index whose line is `clicked`, if any. */
  method FindLine(lines: seq<string>, clicked: string) returns (found: Option<nat>)
    ensures found == IndexOf(lines, clicked)
  {
    found := None;
    var idx := 0;
    while idx < |lines|
      invariant 0 <= idx <= |lines|
      invariant forall j :: 0 <= j < idx ==> lines[j] != clicked
    {
      if lines[idx] == clicked {
        found := Some(idx);
        assert IndexOf(lines, clicked).Some?;
        return;
      }
      idx := idx + 1;
    }
  }

  // ---------------------------------------------------------------------
  // The expenses window
  // ---------------------------------------------------------------------

  /** `ExpensesWindow`: the items of one period, their printed lines and the two sort buttons. */
  class ExpensesWindow {
    const db: DatabaseHandler
    const month: string
    const year: string
    var items: seq<Item>
    var itemsPrint: seq<string>
    var dateChecked: bool
    var categoryChecked: bool

    /** The printed lines are those of the items (in the same order) and every day is an integer. */
    predicate Valid()
      reads this
    {
      itemsPrint == PrintLines(items) && All(items, DayIsInt)
    }

    /**
     * Opening the window: the period's items in date order, printed, the
     * date button checked. The source raises out of `__init__` when the
     * query raises; `DateWindow.ShowExpenses` models that case.
     */
    constructor(db: DatabaseHandler, month: string, year: string)
      requires ElementsPeriod(db.rows, month, year).Ok?
      ensures this.db == db && this.month == month && this.year == year
      ensures items == ElementsPeriod(db.rows, month, year).value
      ensures Valid()
      ensures dateChecked && !categoryChecked
    {
      this.db := db;
      this.month := month;
      this.year := year;
      var fetched := db.GetElementsPeriod(month, year);
      items := fetched.value;
      ElementsPeriodAscending(db.rows, month, year);
      var lines := MakePrintingNice(fetched.value);
      itemsPrint := lines;
      dateChecked := true;
      categoryChecked := false;
    }

    /** `sort_items(kind)`: `self.items` is reassigned unless the sort key raises. */
    method SortItems(kind: string) returns (raised: Option<Error>)
      modifies this`items
      ensures SortedItems(old(items), kind).Ok? ==> raised == None && items == SortedItems(old(items), kind).value
      ensures SortedItems(old(items), kind).Err? ==> raised == Some(SortedItems(old(items), kind).error) && items == old(items)
    {
      if kind == "date" {
        var ok := CheckAll(items, DayIsInt);
        if !ok {
          return Some(ValueError);
        }
        items := StableSort.SortBy(items, DayKey);
      } else if kind == "category" {
        var ok := CheckAll(items, CategoryIsKnown);
        if !ok {
          return Some(ValueError);
        }
        items := StableSort.SortBy(items, CategoryKey);
      }
      raised := None;
    }

    /** `write_expenses_window`: the printed lines are rebuilt from the items. */
    method WriteExpensesWindow()
      modifies this`itemsPrint
      ensures itemsPrint == PrintLines(items)
    {
      itemsPrint := MakePrintingNice(items);
    }

    /**
     * A click on the date button: Qt flips the checkable button, then
     * `_sort_by_date` sorts, unchecks the category button, reprints and
     * checks the date button again. Days are integers, so it never raises.
     */
    method SortByDate()
      requires Valid()
      modifies this`items, this`itemsPrint, this`dateChecked, this`categoryChecked
      ensures Valid()
      ensures items == SortedItems(old(items), "date").value
      ensures dateChecked && !categoryChecked
    {
      dateChecked := !dateChecked;
      var raised := SortItems("date");
      SortByDateSpec(old(items));
      categoryChecked := false;
      WriteExpensesWindow();
      dateChecked := true;
    }

    /**
     * A click on the category button: as `SortByDate` with the roles of
     * the buttons swapped; when a category is not in the registry the
     * sort raises, and at the moment of the raise only Qt's flip of the
     * clicked button has happened.
     */
    method SortByCategory() returns (raised: Option<Error>)
      requires Valid()
      modifies this`items, this`itemsPrint, this`dateChecked, this`categoryChecked
      ensures Valid()
      ensures raised == None <==> SortedItems(old(items), "category").Ok?
      ensures raised == None ==> items == SortedItems(old(items), "category").value && categoryChecked && !dateChecked
      ensures raised != None ==> raised == Some(ValueError) && items == old(items) && itemsPrint == old(itemsPrint)
      ensures raised != None ==> categoryChecked == !old(categoryChecked) && dateChecked == old(dateChecked)
    {
      categoryChecked := !categoryChecked;
      raised := SortItems("category");
      if raised.Some? {
        return;
      }
      SortByCategorySpec(old(items));
      AllOfPermutation(old(items), items, DayIsInt);
      dateChecked := false;
      WriteExpensesWindow();
      categoryChecked := true;
    }

    /**
     * `delete_item` for the delete button of the line `clicked`: the item
     * of the first equal line is deleted with the window's month and year.
     * With no equal line `expense_to_exclude` is never bound. The window's
     * own lists are left as they were.
     */
    method DeleteItem(clicked: string) returns (raised: Option<Error>)
      requires Valid()
      modifies db
      ensures Valid() && items == old(items) && itemsPrint == old(itemsPrint)
      ensures raised == None <==> clicked in itemsPrint
      ensures raised == None ==> db.rows == Without(old(db.rows), RowOf(month, year, items[IndexOf(itemsPrint, clicked).value]))
      ensures raised != None ==> raised == Some(UnboundLocalError) && db.rows == old(db.rows)
    {
      var found := FindLine(itemsPrint, clicked);
      if found.None? {
        return Some(UnboundLocalError);
      }
      var expense := items[found.value];
      db.DeleteEntry(month, year, expense.day, expense.category, expense.value, expense.description);
      raised := None;
    }
  }

  // ---------------------------------------------------------------------
  // DateWindow.add_expense
  // ---------------------------------------------------------------------

  /** The text the category box shows before a category is chosen. */
  const Placeholder := "Category..."

  /** `f"{day}/{number}/{year}; {value}; {category}; {description}"`. */
  function EntryMessage(day: string, number: int, year: string, value: string, category: string, description: string): string {
    day + "/" + IntToString(number) + "/" + year + "; " + value + "; " + category + "; " + description
  }

  /** A ';' typed in any input gives the message more than four segments: nothing is accepted. */
  lemma SemicolonRejected(day: string, number: int, year: string, value: string, category: string, description: string)
    requires ';' in day || ';' in year || ';' in value || ';' in category || ';' in description
    ensures !Parse(EntryMessage(day, number, year, value, category, description)).IsValid()
  {
    var m := EntryMessage(day, number, year, value, category, description);
    EntryMessageCount(day, number, year, value, category, description);
    assert multiset(m)[';'] != 3 by {
      if ';' in day {
        assert multiset(day)[';'] > 0;
      } else if ';' in year {
        assert multiset(year)[';'] > 0;
      } else if ';' in value {
        assert multiset(value)[';'] > 0;
      } else if ';' in category {
        assert multiset(category)[';'] > 0;
      } else {
        assert multiset(description)[';'] > 0;
      }
    }
    WrongSegmentCount(m);
  }

  /** The separators of a built message: three of its own and those typed in the inputs. */
  lemma EntryMessageCount(day: string, number: int, year: string, value: string, category: string, description: string)
    ensures multiset(EntryMessage(day, number, year, value, category, description))[';']
         == multiset(day)[';'] + multiset(year)[';'] + multiset(value)[';']
            + multiset(category)[';'] + multiset(description)[';'] + 3
  {
    var n := IntToString(number);
    IntToStringFree(number);
    var date := day + "/" + n + "/" + year;
    assert multiset(date)[';'] == multiset(day)[';'] + multiset(year)[';'];
    var m1 := date + "; " + value;
    assert multiset(m1)[';'] == multiset(date)[';'] + multiset(value)[';'] + 1;
    var m2 := m1 + "; " + category;
    assert multiset(m2)[';'] == multiset(m1)[';'] + multiset(category)[';'] + 1;
    assert EntryMessage(day, number, year, value, category, description) == m2 + "; " + description;
  }

  /** A message whose category segment is the placeholder has no category. */
  lemma PlaceholderSegment(date: string, value: string, description: string)
    requires ';' !in date && ';' !in value && ';' !in description
    ensures Parse(date + "; " + value + "; " + Placeholder + "; " + description).category == None
  {
    var m := date + "; " + value + "; " + Placeholder + "; " + description;
    PlaceholderFree();
    PlaceholderCategory();
    AddExpenseSegments(date, value, Placeholder, description);
    ParseOfSegments(m, date, " " + value, " " + Placeholder, " " + description);
  }

  lemma PlaceholderFree()
    ensures ';' !in Placeholder
  {
  }

  /** The placeholder, as the third segment of a message, is no category. */
  lemma PlaceholderCategory()
    ensures ParseCategory(Strip(" " + Placeholder)) == None
  {
    StripSpaced(Placeholder);
    PlaceholderRejected();
  }

  /** `str(n)` holds no ';'. */
  lemma IntToStringFree(n: int)
    ensures ';' !in IntToString(n)
  {
    if n < 0 {
      assert IntToString(n) == "-" + NatToString(-n);
    }
  }

  /** Leaving the category box at its placeholder is always rejected. */
  lemma PlaceholderNeverAccepted(day: string, number: int, year: string, value: string, description: string)
    ensures !Parse(EntryMessage(day, number, year, value, Placeholder, description)).IsValid()
  {
    if ';' in day || ';' in year || ';' in value || ';' in description {
      SemicolonRejected(day, number, year, value, Placeholder, description);
    } else {
      var date := day + "/" + IntToString(number) + "/" + year;
      IntToStringFree(number);
      assert ';' !in date;
      assert EntryMessage(day, number, year, value, Placeholder, description)
          == date + "; " + value + "; " + Placeholder + "; " + description;
      PlaceholderSegment(date, value, description);
    }
  }

  /**
   * Typing a stored record back into the date window of its month and
   * year (its day, its value, its category and its description) stores
   * the same record again.
   */
  lemma AddExpenseRoundTrip(d: Date, cents: nat, category: string, description: string)
    requires ValidDate(d) && 1000 <= d.year
    requires category in Categories
    requires description != [] && Trimmed(description) && ';' !in description
    ensures var month := MonthName(d.month);
      month in MonthNameToNumber()
      && var p := Parse(EntryMessage(Pad2(d.day), MonthNameToNumber()[month], NatToString(d.year),
                                     FormatCents(cents), category, description));
      p.IsValid()
      && ParsedRow(p) == Row(month, NatToString(d.year), Pad2(d.day), category, FormatCents(cents), description)
  {
    MonthAt(d.month - 1);
    MessageRoundTrip(d, cents, category, description);
  }

  /** `DateWindow`: the input widgets of one period and the confirmation label. */
  class DateWindow {
    const db: DatabaseHandler
    const month: string
    const year: string
    var day: string
    var value: string
    var description: string
    var category: string
    var confirmText: string
    /** The chart on the window's canvas; `None` while the figure is still blank. */
    var chart: Option<Summary>

    /**
     * The widgets of a new window: empty inputs, the category box at its
     * placeholder, no label and a blank figure. The first drawing of the
     * chart, which can raise, is `NewDateWindow`.
     */
    constructor(db: DatabaseHandler, month: string, year: string)
      ensures this.db == db && this.month == month && this.year == year
      ensures day == "" && value == "" && description == "" && category == Placeholder && confirmText == ""
      ensures chart == None
    {
      this.db := db;
      this.month := month;
      this.year := year;
      day, value, description, category, confirmText := "", "", "", Placeholder, "";
      chart := None;
    }

    /**
     * `add_expense`: the message is built from the inputs and the month's
     * number and parsed; a valid parse is stored and the inputs cleared,
     * an invalid one only sets the label. A month outside
     * `DICT_MONTHS_NAMETONUMBER` raises KeyError before anything happens.
     */
    method AddExpense() returns (raised: Option<Error>)
      modifies this`day, this`value, this`description, this`category, this`confirmText, db
      ensures month !in MonthNameToNumber() ==>
                raised == Some(KeyError) && db.rows == old(db.rows) && confirmText == old(confirmText)
                && day == old(day) && value == old(value) && description == old(description) && category == old(category)
      ensures month in MonthNameToNumber() ==> raised == None
      ensures month in MonthNameToNumber() ==>
                var p := Parse(EntryMessage(old(day), MonthNameToNumber()[month], year, old(value), old(category), old(description)));
                if p.IsValid() then
                  db.rows == old(db.rows) + [ParsedRow(p)]
                  && confirmText == "Expense " + old(category) + "/" + p.value.value + "€ added ✓"
                  && day == "" && value == "" && description == "" && category == Placeholder
                else
                  db.rows == old(db.rows) && confirmText == "Information not valid..."
                  && day == old(day) && value == old(value) && description == old(description) && category == old(category)
    {
      if month !in MonthNameToNumber() {
        return Some(KeyError);
      }
      var message := EntryMessage(day, MonthNameToNumber()[month], year, value, category, description);
      var info := new UserInputProcessor(message);
      Submit(info);
      raised := None;
    }

    /** The part of `add_expense` after the parse: store and clear, or report. */
    method Submit(info: UserInputProcessor)
      requires info.isValid == info.Fields().IsValid()
      modifies this`day, this`value, this`description, this`category, this`confirmText, db
      ensures var p := info.Fields();
                if p.IsValid() then
                  db.rows == old(db.rows) + [ParsedRow(p)]
                  && confirmText == "Expense " + old(category) + "/" + p.value.value + "€ added ✓"
                  && day == "" && value == "" && description == "" && category == Placeholder
                else
                  db.rows == old(db.rows) && confirmText == "Information not valid..."
                  && day == old(day) && value == old(value) && description == old(description) && category == old(category)
    {
      if info.isValid {
        confirmText := "Expense " + category + "/" + info.value.value + "€ added ✓";
        db.AddEntry(info.month.value, IntToString(info.year.value), info.day.value,
                    info.category.value, info.value.value, info.description.value);
        day, value, description, category := "", "", "", Placeholder;
      } else {
        confirmText := "Information not valid...";
      }
    }

    /** `show_expenses`: a new expenses window of this period, or the error its query raises. */
    method ShowExpenses() returns (r: Result<ExpensesWindow>)
      ensures ElementsPeriod(db.rows, month, year).Err? ==> r == Err(ElementsPeriod(db.rows, month, year).error)
      ensures ElementsPeriod(db.rows, month, year).Ok? ==>
                r.Ok? && fresh(r.value) && r.value.db == db && r.value.month == month && r.value.year == year
                && r.value.items == ElementsPeriod(db.rows, month, year).value && r.value.Valid()
    {
      var fetched := db.GetElementsPeriod(month, year);
      if fetched.Err? {
        return Err(fetched.error);
      }
      var w := new ExpensesWindow(db, month, year);
      r := Ok(w);
    }

    /**
     * `plotSummaryDate`: "No expenses so far" for an empty period,
     * otherwise one bar per registry category, in the registry's order,
     * carrying the sum of the cents of that category's items; an error of
     * the query or of `float` propagates.
     */
    method PlotSummaryDate() returns (r: Result<Summary>)
      ensures ElementsPeriod(db.rows, month, year).Err? ==> r == Err(ValueError)
      ensures ElementsPeriod(db.rows, month, year) == Ok([]) ==> r == Ok(NoExpenses)
      ensures ElementsPeriod(db.rows, month, year).Ok? && ElementsPeriod(db.rows, month, year).value != [] ==>
                var items := ElementsPeriod(db.rows, month, year).value;
                (r.Ok? <==> forall c :: c in Categories ==> Readable(items, c, ValueCents))
                && (r.Ok? ==> r.value.Bars? && |r.value.totals| == |Categories|
                              && forall i :: 0 <= i < |Categories| ==> r.value.totals[i] == ItemSum(items, Categories[i], ValueCents))
                && (r.Err? ==> r.error == ValueError)
    {
      var expenses := db.GetElementsPeriod(month, year);
      if expenses.Err? {
        return Err(expenses.error);
      }
      if |expenses.value| == 0 {
        return Ok(NoExpenses);
      }
      var totals := CategoryTotals(expenses.value, ValueCents);
      if totals.Err? {
        return Err(totals.error);
      }
      r := Ok(Bars(totals.value));
    }
  }

  /**
   * `plotSummaryDate` raises: the period query fails, or the period has
   * items and `float` rejects the value of an item of a listed category.
   */
  predicate SummaryRaises(rows: seq<Row>, month: string, year: string) {
    var fetched := ElementsPeriod(rows, month, year);
    fetched.Err?
    || (fetched.value != [] && !(forall c :: c in Categories ==> Readable(fetched.value, c, ValueCents)))
  }

  /**
   * `DateWindow(db_handler, month, year)`: the widgets are built and the
   * summary is drawn once; when that drawing raises, the exception leaves
   * the constructor and no window is produced.
   */
  method NewDateWindow(db: DatabaseHandler, month: string, year: string) returns (r: Result<DateWindow>)
    ensures r.Err? <==> SummaryRaises(db.rows, month, year)
    ensures r.Err? ==> r.error == ValueError
    ensures r.Ok? ==> fresh(r.value) && r.value.db == db && r.value.month == month && r.value.year == year
    ensures r.Ok? ==> r.value.day == "" && r.value.value == "" && r.value.description == ""
                      && r.value.category == Placeholder && r.value.confirmText == ""
    ensures r.Ok? && ElementsPeriod(db.rows, month, year) == Ok([]) ==> r.value.chart == Some(NoExpenses)
    ensures r.Ok? && ElementsPeriod(db.rows, month, year) != Ok([]) ==>
              var items := ElementsPeriod(db.rows, month, year).value;
              r.value.chart.Some? && r.value.chart.value.Bars?
              && r.value.chart.value.totals == PerCategory(items, Categories, ValueCents)
  {
    var w := new DateWindow(db, month, year);
    var s := w.PlotSummaryDate();
    if s.Err? {
      return Err(s.error);
    }
    if ElementsPeriod(db.rows, month, year) != Ok([]) {
      assert s.value.totals == PerCategory(ElementsPeriod(db.rows, month, year).value, Categories, ValueCents);
    }
    w.chart := Some(s.value);
    r := Ok(w);
  }

  /** A row of the period whose day `int` rejects keeps its date window from opening. */
  lemma BadDayBlocksWindow(rows: seq<Row>, x: Row)
    requires x in rows && PyInt(x.day).None?
    ensures SummaryRaises(rows, x.month, x.year)
  {
    ElementsPeriodRaises(rows, x.month, x.year);
  }

  // ---------------------------------------------------------------------
  // plotSummaryDate
  // ---------------------------------------------------------------------

  /** The chart of the date window. */
  datatype Summary = NoExpenses | Bars(totals: seq<nat>)

  /** What `float(expense[2])` adds for one item of category `c` (nothing for other categories). */
  function Contribution(it: Item, c: string, read: string -> Option<nat>): nat {
    if it.category != c then 0
    else match read(it.value)
      case Some(v) => v
      case None => 0
  }

  /** The total of category `c`: the sum of the values of its items, 0 when it has none. */
  function ItemSum(items: seq<Item>, c: string, read: string -> Option<nat>): nat {
    if items == [] then 0
    else ItemSum(items[..|items| - 1], c, read) + Contribution(items[|items| - 1], c, read)
  }

  /** `float` accepts the value of every item of category `c`. */
  predicate Readable(items: seq<Item>, c: string, read: string -> Option<nat>) {
    forall i :: 0 <= i < |items| ==> items[i].category == c ==> read(items[i].value).Some?
  }

  /** The totals of the categories `cs`, one per category, in order. */
  function PerCategory(items: seq<Item>, cs: seq<string>, read: string -> Option<nat>): seq<nat> {
    seq(|cs|, i requires 0 <= i < |cs| => ItemSum(items, cs[i], read))
  }

  /** The sum of the values of the items whose category is one of `cs`. */
  function ListedSum(items: seq<Item>, cs: seq<string>, read: string -> Option<nat>): nat {
    if items == [] then 0
    else ListedSum(items[..|items| - 1], cs, read)
         + (var x := items[|items| - 1]; if x.category in cs then Contribution(x, x.category, read) else 0)
  }

  function Sum(s: seq<nat>): nat {
    if s == [] then 0 else Sum(s[..|s| - 1]) + s[|s| - 1]
  }

  /** A category none of the items carries has total 0. */
  lemma {:induction false} ItemSumAbsent(items: seq<Item>, c: string, read: string -> Option<nat>)
    requires forall i :: 0 <= i < |items| ==> items[i].category != c
    ensures ItemSum(items, c, read) == 0
  {
    if items != [] {
      ItemSumAbsent(items[..|items| - 1], c, read);
    }
  }

  /** Adding a category not among `cs` adds its total to the sum of the listed items. */
  lemma {:induction false} ListedSumSnoc(items: seq<Item>, cs: seq<string>, c: string, read: string -> Option<nat>)
    requires c !in cs
    ensures ListedSum(items, cs + [c], read) == ListedSum(items, cs, read) + ItemSum(items, c, read)
  {
    if items != [] {
      ListedSumSnoc(items[..|items| - 1], cs, c, read);
    }
  }

  /** With `cs` the list of categories, the sum of the bars is the sum of every item of a listed category. */
  lemma {:induction false} PerCategoryTotal(items: seq<Item>, cs: seq<string>, read: string -> Option<nat>)
    requires forall i, j :: 0 <= i < j < |cs| ==> cs[i] != cs[j]
    ensures Sum(PerCategory(items, cs, read)) == ListedSum(items, cs, read)
    decreases |cs|
  {
    if cs == [] {
      ListedSumNone(items, read);
    } else {
      var front := cs[..|cs| - 1];
      var c := cs[|cs| - 1];
      PerCategoryTotal(items, front, read);
      assert PerCategory(items, cs, read)[..|cs| - 1] == PerCategory(items, front, read);
      assert cs == front + [c];
      ListedSumSnoc(items, front, c, read);
    }
  }

  lemma {:induction false} ListedSumNone(items: seq<Item>, read: string -> Option<nat>)
    ensures ListedSum(items, [], read) == 0
  {
    if items != [] {
      ListedSumNone(items[..|items| - 1], read);
    }
  }

  /** The title "Total" of the chart: the bars add up to every item whose category is in the registry. */
  lemma SummaryTotal(items: seq<Item>, read: string -> Option<nat>)
    ensures Sum(PerCategory(items, Categories, read)) == ListedSum(items, Categories, read)
  {
    CategoriesDistinct();
    PerCategoryTotal(items, Categories, read);
  }

  /** One step of the inner loop. */
  lemma ItemSumNext(items: seq<Item>, c: string, j: nat, read: string -> Option<nat>)
    requires j < |items|
    ensures ItemSum(items[..j + 1], c, read) == ItemSum(items[..j], c, read) + Contribution(items[j], c, read)
  {
    SliceSnoc(items, j);
  }

  /** The two loops of `plotSummaryDate`, with `read` standing for `float` of a value in cents. */
  method CategoryTotals(items: seq<Item>, read: string -> Option<nat>) returns (r: Result<seq<nat>>)
    ensures r.Ok? <==> forall c :: c in Categories ==> Readable(items, c, read)
    ensures r.Ok? ==> r.value == PerCategory(items, Categories, read)
    ensures r.Err? ==> r.error == ValueError
  {
    var totals: seq<nat> := [];
    for i := 0 to |Categories|
      invariant |totals| == i
      invariant forall k :: 0 <= k < i ==> Readable(items, Categories[k], read)
      invariant forall k :: 0 <= k < i ==> totals[k] == ItemSum(items, Categories[k], read)
    {
      var category := Categories[i];
      var total: nat := 0;
      for j := 0 to |items|
        invariant forall k :: 0 <= k < j ==> items[k].category == category ==> read(items[k].value).Some?
        invariant total == ItemSum(items[..j], category, read)
      {
        ItemSumNext(items, category, j, read);
        if items[j].category == category {
          var v := read(items[j].value);
          if v.None? {
            assert !Readable(items, category, read);
            return Err(ValueError);
          }
          total := total + v.value;
        }
      }
      SliceAll(items);
      totals := totals + [total];
    }
    r := Ok(totals);
  }

  // ---------------------------------------------------------------------
  // ExpenseManager
  // ---------------------------------------------------------------------

  /** `time.strftime("%Y,%m")`: a four-digit year and a month number. */
  datatype Today = Today(year: nat, month: nat)

  predicate ValidToday(t: Today) {
    1000 <= t.year <= 9999 && 1 <= t.month <= 12
  }

  /** What "Go" does with the chosen month and year. */
  datatype Decision =
    | Ignore                                   // not a registry month or year
    | Confirm(selected: Period, today: Period) // ask first: not the current period
    | Open(selected: Period)                   // the current period: open at once

  /** The guard of `open_WindowDate`. */
  function OpenDecision(month: string, year: string, today: Today): Decision
    requires ValidToday(today)
  {
    if month !in Months || year !in Years then Ignore
    else
      var monthToday := Months[today.month - 1];
      var yearToday := NatToString(today.year);
      if monthToday != month || yearToday != year then Confirm(Period(month, year), Period(monthToday, yearToday))
      else Open(Period(month, year))
  }

  /** The current period as the main window names it. */
  function TodayPeriod(today: Today): Period
    requires ValidToday(today)
  {
    Period(MonthName(today.month), NatToString(today.year))
  }

  /** "Go" does nothing exactly when the month or the year is outside the registries. */
  lemma OpenDecisionIgnores(month: string, year: string, today: Today)
    requires ValidToday(today)
    ensures OpenDecision(month, year, today) == Ignore <==> month !in Months || year !in Years
  {
  }

  /** "Go" asks for confirmation exactly when a registry period other than today's is chosen, naming both. */
  lemma OpenDecisionAsks(month: string, year: string, today: Today)
    requires ValidToday(today)
    ensures OpenDecision(month, year, today).Confirm? <==>
              month in Months && year in Years && Period(month, year) != TodayPeriod(today)
    ensures OpenDecision(month, year, today).Confirm? ==>
              OpenDecision(month, year, today) == Confirm(Period(month, year), TodayPeriod(today))
  {
  }

  /** "Go" opens the date window at once exactly when today's period is chosen. */
  lemma OpenDecisionOpens(month: string, year: string, today: Today)
    requires ValidToday(today)
    ensures OpenDecision(month, year, today).Open? <==> month in Months && year in Years && Period(month, year) == TodayPeriod(today)
  {
  }

  /** Python's `s[i]`, negative positions counting from the end. */
  function PyIndex(s: seq<string>, i: int): string
    requires -|s| <= i < |s|
  {
    if i < 0 then s[|s| + i] else s[i]
  }

  /** `month_label` and `year_label` of `plotSummaryAllMonths`. */
  function PreviousMonthLabel(today: Today): Period
    requires ValidToday(today)
  {
    var monthLabel := PyIndex(Months, today.month - 2);
    var yearLabel := if monthLabel != "December" then NatToString(today.year) else IntToString(today.year - 1);
    Period(monthLabel, yearLabel)
  }

  /** The label is `MONTHS[(m - 2) mod 12]`, with Python's modulo. */
  lemma PreviousMonthIndex(today: Today)
    requires ValidToday(today)
    ensures PreviousMonthLabel(today).month == Months[(today.month - 2) % 12]
  {
    if today.month == 1 {
      assert (today.month - 2) % 12 == 11;
    } else {
      assert (today.month - 2) % 12 == today.month - 2;
    }
  }

  /** The label is December exactly in January. */
  lemma PreviousMonthDecember(today: Today)
    requires ValidToday(today)
    ensures PreviousMonthLabel(today).month == "December" <==> today.month == 1
  {
    MonthsDistinct();
    if today.month != 1 {
      assert Months[today.month - 2] != Months[11];
    }
  }

  /**
   * The label names the month before today's: December of the year before
   * in January, otherwise the previous month of the same year.
   */
  lemma PreviousMonthSpec(today: Today)
    requires ValidToday(today)
    ensures today.month == 1 ==> PreviousMonthLabel(today) == Period("December", NatToString(today.year - 1))
    ensures today.month != 1 ==> PreviousMonthLabel(today) == Period(MonthName(today.month - 1), NatToString(today.year))
  {
    PreviousMonthDecember(today);
  }

  /** What the main window's chart shows: the previous month's label and the cumulative table. */
  datatype Overview = Overview(title: Period, cumulative: map<string, map<string, int>>)

  /** `ExpenseManager`: the main window, with at most one date window open. */
  class ExpenseManager {
    const db: DatabaseHandler
    var dateWindow: Option<DateWindow>
    var confirmation: Option<Period>
    /** The chart on the main canvas; `None` while the figure is still blank. */
    var overview: Option<Overview>

    /**
     * The widgets of the main window, no date window and a blank figure.
     * The first drawing of the chart, which can raise, is `NewExpenseManager`.
     */
    constructor(db: DatabaseHandler)
      ensures this.db == db && dateWindow == None && confirmation == None && overview == None
    {
      this.db := db;
      dateWindow := None;
      confirmation := None;
      overview := None;
    }

    /**
     * `open_WindowDate` with today's date passed in. On the open branch the
     * date window's constructor can raise, and then no window is stored.
     */
    method OpenWindowDate(month: string, year: string, today: Today) returns (d: Decision, raised: Option<Error>)
      requires ValidToday(today)
      modifies this`dateWindow, this`confirmation
      ensures d == OpenDecision(month, year, today)
      ensures !d.Open? ==> raised == None
      ensures d.Ignore? ==> dateWindow == old(dateWindow) && confirmation == old(confirmation)
      ensures d.Confirm? ==> dateWindow == old(dateWindow) && confirmation == Some(Period(month, year))
      ensures d.Open? ==> confirmation == old(confirmation) && (raised.Some? <==> SummaryRaises(db.rows, month, year))
      ensures d.Open? && raised.Some? ==> raised == Some(ValueError) && dateWindow == old(dateWindow)
      ensures d.Open? && raised.None? ==> (
                dateWindow.Some? && fresh(dateWindow.value) && dateWindow.value.db == db
                && dateWindow.value.month == month && dateWindow.value.year == year)
    {
      raised := None;
      if month !in Months || year !in Years {
        return Ignore, None;
      }
      var monthToday := Months[today.month - 1];
      var yearToday := NatToString(today.year);
      if monthToday != month || yearToday != year {
        confirmation := Some(Period(month, year));
        d := Confirm(Period(month, year), Period(monthToday, yearToday));
      } else {
        raised := OnConfirmationWindow(true, month, year);
        d := Open(Period(month, year));
      }
    }

    /**
     * `onConfirmationWindow`: an accepted period gets a new date window,
     * unless building it raises, which leaves `date_window` as it was.
     */
    method OnConfirmationWindow(accept: bool, month: string, year: string) returns (raised: Option<Error>)
      modifies this`dateWindow
      ensures !accept ==> raised == None && dateWindow == old(dateWindow)
      ensures accept ==> (raised.Some? <==> SummaryRaises(db.rows, month, year))
      ensures raised.Some? ==> raised == Some(ValueError) && dateWindow == old(dateWindow)
      ensures accept && raised.None? ==> (
                dateWindow.Some? && fresh(dateWindow.value) && dateWindow.value.db == db
                && dateWindow.value.month == month && dateWindow.value.year == year)
    {
      raised := None;
      if accept {
        var w := NewDateWindow(db, month, year);
        if w.Err? {
          return Some(w.error);
        }
        dateWindow := Some(w.value);
      }
    }

    /** `close_WindowDate`, on the date window's `closed` signal. */
    method CloseWindowDate()
      modifies this`dateWindow
      ensures dateWindow == None
    {
      dateWindow := None;
    }

    /** `closeEvent`: the main window only closes when no date window is open. */
    method CloseEvent() returns (accepted: bool)
      ensures accepted <==> dateWindow.None?
    {
      accepted := dateWindow.None?;
    }

    /**
     * The computed part of `plotSummaryAllMonths`: the label of the month
     * before today's and the cumulative table up to today's period.
     */
    method PlotSummaryAllMonths(today: Today) returns (title: Period, items: Result<map<string, map<string, int>>>)
      requires ValidToday(today)
      ensures title == PreviousMonthLabel(today)
      ensures items == Cumulative(db.rows, MonthName(today.month), NatToString(today.year))
    {
      title := PreviousMonthLabel(today);
      var month := MonthName(today.month);
      items := db.GetCumulativeExpensesUntilPeriod(month, NatToString(today.year));
    }
  }

  /**
   * `ExpenseManager(db_handler)`: the widgets are built and the overview is
   * drawn once; when the cumulative query raises, the exception leaves the
   * constructor and no main window is produced.
   */
  method NewExpenseManager(db: DatabaseHandler, today: Today) returns (r: Result<ExpenseManager>)
    requires ValidToday(today)
    ensures var cumulative := Cumulative(db.rows, MonthName(today.month), NatToString(today.year));
      (r.Err? <==> cumulative.Err?)
      && (r.Err? ==> r.error == cumulative.error)
      && (r.Ok? ==> fresh(r.value) && r.value.db == db && r.value.dateWindow == None && r.value.confirmation == None
                    && r.value.overview == Some(Overview(PreviousMonthLabel(today), cumulative.value)))
  {
    var m := new ExpenseManager(db);
    var title, items := m.PlotSummaryAllMonths(today);
    if items.Err? {
      return Err(items.error);
    }
    m.overview := Some(Overview(title, items.value));
    r := Ok(m);
  }
}
