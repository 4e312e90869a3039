/** `QuickBooks_Status_Report::describe`: a static table from QuickBooks
    error code to a human explanation. */
module ErrorDescriptions {
  import opened Php

  const DuplicateName: string :=
    "QuickBooks \"Name\" fields must be unique across all Customers, Vendors, Employees, and Other Names. Is there another Customer, Vendor, Employee, or Other Name with the same name as this record?"

  /** Error code to message pattern to explanation; only the catch-all
      pattern `*` is ever looked up. */
  const Errors: map<Key, map<string, string>> := map[IntKey(3100) := map["*" := DuplicateName]]

  /** The error codes that reach the table's only entry are exactly the
      text "3100". */
  lemma DuplicateNameKey(code: Cell)
    ensures KeyOf(code) == IntKey(3100) <==> code == Text("3100")
  {
    assert ShowInt(3100) == "3100" by {
      assert ShowNat(3) == "3";
      assert ShowNat(31) == ShowNat(3) + "1";
      assert ShowNat(310) == ShowNat(31) + "0";
      assert ShowNat(3100) == ShowNat(310) + "0";
    }
    if code == Text("3100") {
      KeyOfCanonical(3100);
    }
  }

  /** The explanation for an error code: the duplicate-name text for the code
      "3100" and the empty string for every other code; the message is never
      consulted. */
  function Describe(code: Cell, message: Cell): (r: string)
    ensures r == DuplicateName <==> code == Text("3100")
    ensures r != DuplicateName ==> r == ""
  {
    DuplicateNameKey(code);
    var k := KeyOf(code);
    if k in Errors then Errors[k]["*"] else ""
  }
}
