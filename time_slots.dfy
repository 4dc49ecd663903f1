/** The hourly slot list that both the booking page and the reservation-change
    modal build (`generateTimeSlots`), the position lookup they use
    (`allTimeSlots.indexOf`), the availability map the backend returns for a day
    and the styles a slot button can take. */
module TimeSlots {
  import opened Common

  /** The day's availability as the backend sends it: slot label to status text. */
  type Availability = map<string, string>

  const OCCUPIED: string := "occupied"
  const AVAILABLE: string := "available"
  const UNAVAILABLE: string := "unavailable"

  /** `availability[slot] === 'occupied'`; a missing key is not occupied. */
  predicate IsOccupied(av: Availability, slot: string) {
    slot in av && av[slot] == OCCUPIED
  }

  /** `availability[slot] || 'unavailable'`: a missing or empty status reads as unavailable. */
  function StatusOf(av: Availability, slot: string): (status: string)
    ensures status != ""
    ensures slot in av && av[slot] != "" ==> status == av[slot]
  {
    if slot in av && av[slot] != "" then av[slot] else UNAVAILABLE
  }

  /** The label of hour `h`: two zero-padded digits, then ":00". */
  function HourLabel(h: nat): string
    requires h < 100
  {
    [DigitChar(h / 10), DigitChar(h % 10), ':', '0', '0']
  }

  /** The template `${h.toString().padStart(2, '0')}:00` gives that label for
      every hour below 100. */
  lemma HourLabelTemplate(h: nat)
    requires h < 100
    ensures PadStart(DecimalString(h), 2, '0') + ":00" == HourLabel(h)
  {
    var d := DecimalString(h);
    if h < 10 {
      assert PadStart(d, 2, '0') == ['0', DigitChar(h)];
    } else {
      assert PadStart(d, 2, '0') == d;
    }
  }

  /** The closing hour the source pushes as a literal is what the template gives for hour 23. */
  lemma ClosingLabel()
    ensures PadStart(DecimalString(23), 2, '0') + ":00" == "23:00"
    ensures HourLabel(23) == "23:00"
  {
    HourLabelTemplate(23);
  }

  /** The labels of `count` consecutive hours starting at hour `first`. */
  function HourLabels(first: nat, count: nat): seq<string>
    requires first + count <= 100
    decreases count
  {
    if count == 0 then [] else [HourLabel(first)] + HourLabels(first + 1, count - 1)
  }

  /** The labels run over the hours in order, one entry per hour. */
  lemma {:induction false} HourLabelsEntries(first: nat, count: nat)
    requires first + count <= 100
    ensures |HourLabels(first, count)| == count
    ensures forall i :: 0 <= i < count ==> HourLabels(first, count)[i] == HourLabel(first + i)
    decreases count
  {
    if count > 0 {
      HourLabelsEntries(first + 1, count - 1);
      var rest := HourLabels(first + 1, count - 1);
      assert HourLabels(first, count) == [HourLabel(first)] + rest;
      forall i | 0 < i < count ensures HourLabels(first, count)[i] == HourLabel(first + i) {
        assert HourLabels(first, count)[i] == rest[i - 1];
      }
    }
  }

  /** The slots the pages show: what `generateTimeSlots` returns. */
  function SlotTable(): seq<string>
  {
    HourLabels(9, 14) + ["23:00"]
  }

  /** `generateTimeSlots`: the labels of hours 9 to 22 pushed in a loop, then the
      closing hour "23:00". */
  method GenerateTimeSlots() returns (slots: seq<string>)
    ensures |slots| == 15
    ensures forall i :: 0 <= i < 15 ==> slots[i] == HourLabel(9 + i)
    ensures slots == SlotTable()
  {
    slots := [];
    var h := 9;
    while h <= 22
      invariant 9 <= h <= 23
      invariant |slots| == h - 9
      invariant forall i :: 0 <= i < |slots| ==> slots[i] == HourLabel(9 + i)
    {
      var entry := PadStart(DecimalString(h), 2, '0') + ":00";
      HourLabelTemplate(h);
      PushLabel(slots, h, entry);
      slots := slots + [entry];
      h := h + 1;
    }
    var hours := slots;
    slots := hours + ["23:00"];
    assert forall i :: 0 <= i < 14 ==> slots[i] == hours[i];
    SlotTableMatches(slots);
  }

  /** Pushing the label of the next hour keeps "entry `i` is the label of hour 9 + i". */
  lemma PushLabel(slots: seq<string>, h: nat, entry: string)
    requires 9 <= h < 100 && |slots| == h - 9 && entry == HourLabel(h)
    requires forall i :: 0 <= i < |slots| ==> slots[i] == HourLabel(9 + i)
    ensures forall i :: 0 <= i <= |slots| ==> (slots + [entry])[i] == HourLabel(9 + i)
  {
    var t := slots + [entry];
    forall i | 0 <= i <= |slots| ensures t[i] == HourLabel(9 + i) {
      if i < |slots| {
        assert t[i] == slots[i];
      }
    }
  }

  /** Any 15 entries holding the hour labels and ending in "23:00" are the table. */
  lemma SlotTableMatches(slots: seq<string>)
    requires |slots| == 15 && slots[14] == "23:00"
    requires forall i :: 0 <= i < 14 ==> slots[i] == HourLabel(9 + i)
    ensures forall i :: 0 <= i < 15 ==> slots[i] == HourLabel(9 + i)
    ensures slots == SlotTable()
  {
    SlotTableEntries();
  }

  /** The table has 15 entries, each the label of its hour. */
  lemma SlotTableEntries()
    ensures |SlotTable()| == 15
    ensures forall i :: 0 <= i < 15 ==> SlotTable()[i] == HourLabel(9 + i)
  {
    HourLabelsEntries(9, 14);
    ClosingLabel();
    var t := SlotTable();
    forall i | 0 <= i < 15 ensures t[i] == HourLabel(9 + i) {
      if i < 14 {
        assert t[i] == HourLabels(9, 14)[i];
      }
    }
  }

  /** The table runs from "09:00" to "23:00". */
  lemma SlotTableEnds()
    ensures SlotTable()[0] == "09:00" && SlotTable()[|SlotTable()| - 1] == "23:00"
  {
    SlotTableEntries();
    assert DigitChar(0) == '0' && DigitChar(9) == '9';
    assert SlotTable()[0] == HourLabel(9) == "09:00";
  }

  /** Strict lexicographic order on strings, as JavaScript's `<` compares them. */
  predicate Before(a: string, b: string)
  {
    if a == [] then b != []
    else b != [] && (a[0] < b[0] || (a[0] == b[0] && Before(a[1..], b[1..])))
  }

  /** Zero padding makes the text order of the labels agree with the order of the hours. */
  lemma HourLabelsOrdered(h1: nat, h2: nat)
    requires h1 < h2 < 100
    ensures Before(HourLabel(h1), HourLabel(h2))
  {
    var a, b := HourLabel(h1), HourLabel(h2);
    if h1 / 10 == h2 / 10 {
      assert h1 % 10 < h2 % 10;
      assert a[0] == b[0] && a[1..][0] < b[1..][0];
    } else {
      assert h1 / 10 < h2 / 10;
    }
  }

  /** Distinct hours get distinct labels. */
  lemma HourLabelInjective(h1: nat, h2: nat)
    requires h1 < 100 && h2 < 100 && HourLabel(h1) == HourLabel(h2)
    ensures h1 == h2
  {
    assert DigitValue(DigitChar(h1 / 10)) == h1 / 10;
    assert DigitValue(DigitChar(h2 / 10)) == h2 / 10;
    assert DigitValue(DigitChar(h1 % 10)) == h1 % 10;
    assert DigitValue(DigitChar(h2 % 10)) == h2 % 10;
  }

  /** The slot list is strictly increasing as text. */
  lemma SlotTableIncreasing(i: int, j: int)
    requires 0 <= i < j < 15
    ensures Before(SlotTable()[i], SlotTable()[j])
  {
    SlotTableEntries();
    HourLabelsOrdered(9 + i, 9 + j);
  }

  /** `Array.prototype.indexOf`: the first position holding `x`, or -1. */
  function IndexOf<T(==)>(s: seq<T>, x: T): (r: int)
    ensures -1 <= r < |s|
    ensures r == -1 <==> x !in s
    ensures 0 <= r ==> s[r] == x && x !in s[..r]
  {
    if s == [] then -1
    else if s[0] == x then 0
    else
      var r := IndexOf(s[1..], x);
      assert s[1..] == s[1..];
      if r == -1 then -1
      else
        assert s[..r + 1] == [s[0]] + s[1..][..r];
        r + 1
  }

  /** No value occurs twice in `s`. */
  predicate Distinct<T(==)>(s: seq<T>) {
    forall i, j :: 0 <= i < j < |s| ==> s[i] != s[j]
  }

  /** In a list without repeats, `indexOf` finds each entry at its own position. */
  lemma IndexOfDistinct<T>(s: seq<T>, i: int)
    requires Distinct(s) && 0 <= i < |s|
    ensures IndexOf(s, s[i]) == i
  {
  }

  /** The slot table has fifteen distinct labels. */
  lemma SlotTableDistinct()
    ensures |SlotTable()| == 15 && Distinct(SlotTable())
  {
    SlotTableEntries();
    forall i, j | 0 <= i < j < 15 ensures SlotTable()[i] != SlotTable()[j] {
      if SlotTable()[i] == SlotTable()[j] {
        HourLabelInjective(9 + i, 9 + j);
      }
    }
  }

  /** Each slot's position in the table is its own index: the labels are distinct. */
  lemma SlotIndex(i: int)
    requires 0 <= i < 15
    ensures IndexOf(SlotTable(), SlotTable()[i]) == i
  {
    SlotTableDistinct();
    IndexOfDistinct(SlotTable(), i);
  }

  /** The style of one slot button; `Hidden` is the closing hour, never shown. */
  datatype SlotStyle = Hidden | OccupiedStyle | SelectedStyle | AvailableStyle | UnavailableStyle
}
