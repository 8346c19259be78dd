/** The "Add New Storage Location" dialog: its form, the input handlers
    (the zone is stored upper-cased), the live preview of the location
    code, and the submit handler, which builds the new location, hands it
    to the inventory screen, announces it and resets the form. */
module LocationDialog {
  import opened Options
  import Text
  import Numerals
  import Inventory

  /** The form's fields, all held as text as the inputs deliver them. */
  datatype Form = Form(zone: string, aisle: string, rack: string, bin: string, capacity: string)

  /** The form when the dialog first renders and after every submit. */
  const InitialForm: Form := Form([], [], [], [], "100")

  datatype Field = ZoneField | AisleField | RackField | BinField | CapacityField

  /** The `onChange` of an input followed by `handleInputChange`: the typed
      text replaces one field, upper-cased for the zone, and the other
      fields keep their values. */
  function OnChange(form: Form, field: Field, typed: string): (r: Form)
    ensures field == ZoneField ==> r == form.(zone := Text.Upper(typed))
    ensures field != ZoneField ==> r.zone == form.zone
    ensures field == AisleField ==> r == form.(aisle := typed)
    ensures field == RackField ==> r == form.(rack := typed)
    ensures field == BinField ==> r == form.(bin := typed)
    ensures field == CapacityField ==> r == form.(capacity := typed)
    ensures field == ZoneField ==> forall i :: 0 <= i < |r.zone| ==> !('a' <= r.zone[i] <= 'z')
  {
    Text.LowerOfUpper(typed);
    match field
    case ZoneField => form.(zone := Text.Upper(typed))
    case AisleField => form.(aisle := typed)
    case RackField => form.(rack := typed)
    case BinField => form.(bin := typed)
    case CapacityField => form.(capacity := typed)
  }

  /** The value, or the fallback when the value is empty (the empty string
      is falsy). */
  function OrDefault(value: string, fallback: string): string {
    if value == [] then fallback else value
  }

  /** The preview line: each address part, or its placeholder (`A` for the
      zone, `01` for the others) while it is empty, joined by `-`. */
  function Preview(form: Form): string {
    Inventory.JoinCode(
      OrDefault(form.zone, "A"), OrDefault(form.aisle, "01"),
      OrDefault(form.rack, "01"), OrDefault(form.bin, "01"))
  }

  /** The location record `handleSubmit` builds. The id embeds the submit
      time, `Date.now()`, which is a parameter here. */
  function NewLocation(form: Form, now: nat): (l: Inventory.Location)
    ensures l.occupied == 0 && l.product == None
    ensures l.zone == form.zone && l.aisle == form.aisle && l.rack == form.rack && l.bin == form.bin
    ensures l.capacity == Numerals.ParseInt(form.capacity)
    ensures |l.id| > 4 && l.id[..4] == "loc-" && Numerals.ParseInt(l.id[4..]) == Some(now)
    ensures Numerals.AllSatisfy(l.id[4..], Numerals.IsDigit) && (|l.id| > 5 ==> l.id[4] != '0')
  {
    var id := "loc-" + Numerals.Decimal(now);
    assert id[4..] == Numerals.Decimal(now);
    Numerals.ParseDecimal(now);
    Inventory.Location(
      id, form.zone, form.aisle, form.rack, form.bin,
      Numerals.ParseInt(form.capacity), 0, None)
  }

  /** What the dialog holds besides the form. */
  datatype Dialog = Dialog(open: bool, loading: bool, form: Form)

  /** The effect of one submit: the dialog afterwards, the inventory
      screen's location list afterwards, the arguments `onLocationAdded`
      was called with (in call order), and the toast text. */
  datatype Submitted = Submitted(
    dialog: Dialog,
    locations: seq<Inventory.Location>,
    added: seq<Inventory.Location>,
    message: string)

  /** `handleSubmit`, with the inventory screen's `onLocationAdded`. The
      callback runs exactly once, with the new location; the screen's list
      gains that location at its end; the toast names its code; the form
      is back to its initial state and the dialog is closed and idle. */
  function Submit(d: Dialog, locations: seq<Inventory.Location>, now: nat): (r: Submitted)
    ensures |r.added| == 1 && r.added[0] == NewLocation(d.form, now)
    ensures |r.locations| == |locations| + 1
    ensures r.locations[..|locations|] == locations && r.locations[|locations|] == r.added[0]
    ensures r.dialog.form == InitialForm && !r.dialog.open && !r.dialog.loading
    ensures r.message == "Location " + Inventory.LocationCode(r.added[0]) + " has been created."
  {
    var l := NewLocation(d.form, now);
    Submitted(
      Dialog(false, false, InitialForm),
      Inventory.AddLocation(locations, l),
      [l],
      "Location " + Inventory.JoinCode(d.form.zone, d.form.aisle, d.form.rack, d.form.bin)
        + " has been created.")
  }

  /** The preview promises the code the location gets: once all four
      address parts are filled in, the preview is the new location's code. */
  lemma PreviewShowsCode(form: Form, now: nat)
    requires form.zone != [] && form.aisle != [] && form.rack != [] && form.bin != []
    ensures Preview(form) == Inventory.LocationCode(NewLocation(form, now))
  {
    var l := NewLocation(form, now);
    assert OrDefault(form.zone, "A") == l.zone;
    assert OrDefault(form.aisle, "01") == l.aisle;
    assert OrDefault(form.rack, "01") == l.rack;
    assert OrDefault(form.bin, "01") == l.bin;
  }

  /** The untouched (or reset) form previews the placeholder code. */
  lemma PreviewPlaceholders()
    ensures Preview(InitialForm) == "A-01-01-01"
  {
    assert Preview(InitialForm) == Inventory.JoinCode("A", "01", "01", "01");
  }

  /** The reset form's capacity reads as 100, so the next location created
      without touching that field gets capacity 100. */
  lemma InitialCapacity(form: Form, now: nat)
    requires form.capacity == InitialForm.capacity
    ensures Numerals.ParseInt(InitialForm.capacity) == Some(100)
    ensures NewLocation(form, now).capacity == Some(100)
  {
    assert Numerals.Decimal(1) == "1";
    assert Numerals.Decimal(10) == "10";
    assert Numerals.Decimal(100) == "100";
    Numerals.ParseDecimal(100);
  }

  /** Two submits at different times create locations with different ids. */
  lemma DistinctIds(form: Form, t1: nat, t2: nat)
    requires t1 != t2
    ensures NewLocation(form, t1).id != NewLocation(form, t2).id
  {
  }
}
