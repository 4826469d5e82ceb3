/**
 Field extraction: turning one parsed XBRL document into an output record,
 driven by the layout's target list. The XBRL object is abstracted to a
 lookup from (element key, context id) to the element's value, if any.
 */
module Extraction {
  import opened Options
  import opened Events

  /** One configured field: the XBRL element key, its context id and the output column. */
  datatype Target = Target(key: string, contextId: string, name: string)

  /** The layout configuration: header columns, the security-code column, and the targets. */
  datatype Layout = Layout(header: seq<string>, secCodeColumn: string, targets: seq<Target>)

  /** The parsed XBRL document: the value of an element in a context, if it has one. */
  type Lookup = (string, string) -> Option<string>

  /** The columns the targets name. */
  function Names(targets: seq<Target>): set<string> {
    set t | t in targets :: t.name
  }

  /** Every column the extraction may set is a header column. */
  predicate FitsHeader(layout: Layout) {
    && layout.secCodeColumn in layout.header
    && forall t :: t in layout.targets ==> t.name in layout.header
  }

  /**
   The value of the last target naming `column` whose lookup yields a value,
   or None when no such target yields one.
   */
  function LastHit(column: string, targets: seq<Target>, xbrl: Lookup): (v: Option<string>)
    ensures v.None? <==>
              forall i :: 0 <= i < |targets| && targets[i].name == column ==>
                xbrl(targets[i].key, targets[i].contextId).None?
    ensures v.Some? ==>
              exists i :: && 0 <= i < |targets| && targets[i].name == column
                          && xbrl(targets[i].key, targets[i].contextId) == v
                          && forall j :: i < j < |targets| && targets[j].name == column ==>
                               xbrl(targets[j].key, targets[j].contextId).None?
    decreases |targets|
  {
    if |targets| == 0 then None
    else
      var t := targets[|targets| - 1];
      if t.name == column && xbrl(t.key, t.contextId).Some? then xbrl(t.key, t.contextId)
      else LastHit(column, targets[..|targets| - 1], xbrl)
  }

  /**
   One iteration of the record-building loop: the target's value overwrites
   the column when the lookup yields one; otherwise the column becomes ""
   only if it is not set yet.
   */
  function Place(record: Record, t: Target, xbrl: Lookup): (r: Record)
    ensures r.Keys == record.Keys + {t.name}
    ensures forall c :: c in record && c != t.name ==> r[c] == record[c]
    ensures r[t.name] == match xbrl(t.key, t.contextId)
                         case Some(v) => v
                         case None => if t.name in record then record[t.name] else ""
  {
    var hit := xbrl(t.key, t.contextId);
    var filled := if hit.Some? then record[t.name := hit.value] else record;
    if t.name in filled then filled else filled[t.name := ""]
  }

  /** The record-building loop over `targets`, in order, starting from `base`. */
  function Fill(base: Record, targets: seq<Target>, xbrl: Lookup): (r: Record)
    ensures r.Keys == base.Keys + Names(targets)
    decreases |targets|
  {
    if |targets| == 0 then base
    else
      var init := targets[..|targets| - 1];
      assert targets == init + [targets[|targets| - 1]];
      assert Names(targets) == Names(init) + {targets[|targets| - 1].name};
      Place(Fill(base, init, xbrl), targets[|targets| - 1], xbrl)
  }

  /** The value a column ends with after the loop, for a loop started from `base`. */
  function Expected(c: string, base: Record, targets: seq<Target>, xbrl: Lookup): string {
    match LastHit(c, targets, xbrl)
    case Some(v) => v
    case None => if c in base then base[c] else ""
  }

  /**
   After the loop, each column holds the value of the last target for it that
   hit; a column no target hit keeps its `base` value, or is "" if it had none.
   */
  lemma {:induction false} FillValues(base: Record, targets: seq<Target>, xbrl: Lookup, c: string)
    requires c in Fill(base, targets, xbrl)
    ensures Fill(base, targets, xbrl)[c] == Expected(c, base, targets, xbrl)
    decreases |targets|
  {
    if |targets| > 0 {
      var init := targets[..|targets| - 1];
      var t := targets[|targets| - 1];
      var prev := Fill(base, init, xbrl);
      assert Fill(base, targets, xbrl) == Place(prev, t, xbrl);
      if c in prev {
        FillValues(base, init, xbrl, c);
      }
      if c != t.name {
        assert c in prev;
      } else if c !in prev {
        assert c !in base;
        assert LastHit(c, init, xbrl).None?;
      }
    }
  }

  /**
   The record of one document: its security code under the security-code
   column, then every target in layout order. The record has exactly the
   security-code column and the target columns, and so fits a layout whose
   header holds them.
   */
  function Extract(secCode: string, layout: Layout, xbrl: Lookup): (r: Record)
    ensures r.Keys == {layout.secCodeColumn} + Names(layout.targets)
    ensures FitsHeader(layout) ==> forall c :: c in r ==> c in layout.header
  {
    Fill(map[layout.secCodeColumn := secCode], layout.targets, xbrl)
  }

  /**
   Each column of a record holds the value of the last target for it whose
   lookup yields one; a column no target hit is "" unless it is the
   security-code column, which keeps the document's security code.
   */
  lemma ExtractValues(secCode: string, layout: Layout, xbrl: Lookup, c: string)
    requires c in Extract(secCode, layout, xbrl)
    ensures Extract(secCode, layout, xbrl)[c] ==
              match LastHit(c, layout.targets, xbrl)
              case Some(v) => v
              case None => if c == layout.secCodeColumn then secCode else ""
  {
    FillValues(map[layout.secCodeColumn := secCode], layout.targets, xbrl, c);
  }

  /**
   The security code is never blanked: unless a target for the security-code
   column hits, that column holds the document's security code.
   */
  lemma SecCodeKept(secCode: string, layout: Layout, xbrl: Lookup)
    requires forall i :: 0 <= i < |layout.targets| && layout.targets[i].name == layout.secCodeColumn ==>
               xbrl(layout.targets[i].key, layout.targets[i].contextId).None?
    ensures Extract(secCode, layout, xbrl)[layout.secCodeColumn] == secCode
  {
    ExtractValues(secCode, layout, xbrl, layout.secCodeColumn);
  }

  /** A target column whose lookups all miss is present in the record, as "". */
  lemma MissingFieldIsEmpty(secCode: string, layout: Layout, xbrl: Lookup, i: nat)
    requires i < |layout.targets|
    requires layout.targets[i].name != layout.secCodeColumn
    requires forall j :: 0 <= j < |layout.targets| && layout.targets[j].name == layout.targets[i].name ==>
               xbrl(layout.targets[j].key, layout.targets[j].contextId).None?
    ensures layout.targets[i].name in Extract(secCode, layout, xbrl)
    ensures Extract(secCode, layout, xbrl)[layout.targets[i].name] == ""
  {
    assert layout.targets[i] in layout.targets;
    ExtractValues(secCode, layout, xbrl, layout.targets[i].name);
  }

}
