/**
 * The column list `column_mask.split(",")`: the comma-separated pieces of
 * the property value, taken as they are (no trimming), with Java's rule
 * that a value without any comma is its own single piece and that trailing
 * empty pieces are dropped otherwise.
 */
module ColumnList {

  /** Every comma-separated piece of `s`, empty ones included. */
  function Fields(s: string): (r: seq<string>)
    ensures |r| > 0
    ensures forall f :: f in r ==> ',' !in f
    decreases |s|
  {
    if |s| == 0 then [""]
    else
      var rest := Fields(s[1..]);
      if s[0] == ',' then [""] + rest
      else
        assert ',' !in rest[0];
        [[s[0]] + rest[0]] + rest[1..]
  }

  /** The pieces put back together, a comma between each two. */
  function JoinWithCommas(fs: seq<string>): string
    requires |fs| > 0
  {
    if |fs| == 1 then fs[0] else fs[0] + "," + JoinWithCommas(fs[1..])
  }

  /** Splitting loses nothing: joining the pieces gives back the value. */
  lemma {:induction false} JoinFields(s: string)
    ensures JoinWithCommas(Fields(s)) == s
    decreases |s|
  {
    if |s| > 0 {
      JoinFields(s[1..]);
      var rest := Fields(s[1..]);
      if s[0] == ',' {
        assert ([""] + rest)[1..] == rest;
      } else if |rest| > 1 {
        assert ([[s[0]] + rest[0]] + rest[1..])[1..] == rest[1..];
        assert JoinWithCommas(rest) == rest[0] + "," + JoinWithCommas(rest[1..]);
      }
    }
  }

  /** The pieces with every trailing empty piece removed. */
  function DropTrailingEmpty(fs: seq<string>): (r: seq<string>)
    ensures forall f :: f != "" ==> (f in r <==> f in fs)
    ensures |r| > 0 ==> r[|r| - 1] != ""
    ensures |r| <= |fs| && r == fs[..|r|]
    ensures forall j :: |r| <= j < |fs| ==> fs[j] == ""
    decreases |fs|
  {
    if |fs| > 0 && fs[|fs| - 1] == "" then
      assert forall f :: f in fs && f != "" ==> f in fs[..|fs| - 1];
      DropTrailingEmpty(fs[..|fs| - 1])
    else fs
  }

  /** Java's `s.split(",")`. */
  function Split(s: string): (r: seq<string>)
    ensures ',' !in s ==> r == [s]
    ensures ',' in s ==> |r| <= |Fields(s)| && r == Fields(s)[..|r|] && forall j :: |r| <= j < |Fields(s)| ==> Fields(s)[j] == ""
    ensures ',' in s && |r| > 0 ==> r[|r| - 1] != ""
    ensures forall f :: f in r ==> ',' !in f
  {
    if ',' !in s then [s] else DropTrailingEmpty(Fields(s))
  }

  /** A non-empty name is in the split list exactly when it is one of the comma-separated pieces. */
  lemma SplitMembership(s: string)
    ensures forall name :: name != "" ==> (name in Split(s) <==> name in Fields(s))
  {
    if ',' !in s {
      NoCommaIsOneField(s);
    }
  }

  /** The empty name survives the dropping exactly when some non-empty piece follows an empty one. */
  lemma EmptyInDropTrailingEmpty(fs: seq<string>)
    ensures "" in DropTrailingEmpty(fs) <==>
              exists j, l :: 0 <= j < l < |fs| && fs[j] == "" && fs[l] != ""
  {
    var r := DropTrailingEmpty(fs);
    if "" in r {
      var j :| 0 <= j < |r| && r[j] == "";
      assert fs[j] == "" && fs[|r| - 1] != "" && j < |r| - 1;
    }
    if exists j, l :: 0 <= j < l < |fs| && fs[j] == "" && fs[l] != "" {
      var j, l :| 0 <= j < l < |fs| && fs[j] == "" && fs[l] != "";
      assert l < |r|;
      assert r[j] == "";
    }
  }

  /**
   * The empty name is in `split(",")` exactly when the value is empty, or
   * some non-empty piece follows an empty one (inner empty pieces are kept,
   * trailing ones dropped).
   */
  lemma SplitEmptyName(s: string)
    ensures "" in Split(s) <==>
              (s == "" || exists j, l :: 0 <= j < l < |Fields(s)| && Fields(s)[j] == "" && Fields(s)[l] != "")
  {
    if ',' in s {
      EmptyInDropTrailingEmpty(Fields(s));
      assert Split(s) == DropTrailingEmpty(Fields(s));
      assert s != "" by { assert ',' in s; }
    } else {
      NoCommaIsOneField(s);
    }
  }

  lemma {:induction false} NoCommaIsOneField(s: string)
    requires ',' !in s
    ensures Fields(s) == [s]
    decreases |s|
  {
    if |s| > 0 {
      NoCommaIsOneField(s[1..]);
      assert [s[0]] + s[1..] == s;
    }
  }

  lemma {:induction false} FieldsAfterComma(a: string, b: string)
    requires ',' !in a
    ensures Fields(a + "," + b) == [a] + Fields(b)
    decreases |a|
  {
    if |a| == 0 {
      assert ("" + "," + b)[1..] == b;
    } else {
      FieldsAfterComma(a[1..], b);
      assert (a + "," + b)[1..] == a[1..] + "," + b;
      assert [a[0]] + a[1..] == a;
    }
  }

  /** Splitting undoes joining, for pieces that hold no comma. */
  lemma {:induction false} FieldsOfJoin(fs: seq<string>)
    requires |fs| > 0
    requires forall i :: 0 <= i < |fs| ==> ',' !in fs[i]
    ensures Fields(JoinWithCommas(fs)) == fs
    decreases |fs|
  {
    if |fs| == 1 {
      NoCommaIsOneField(fs[0]);
    } else {
      FieldsOfJoin(fs[1..]);
      FieldsAfterComma(fs[0], JoinWithCommas(fs[1..]));
    }
  }
}
