/** `get_html` of app/report.py: the body of the report e-mail. */
module Html {
  import opened Compare
  import opened StringOrder

  /** `f"<li>{name}: {descriptor}</li>"`. */
  function Item(name: string, descriptor: string): string {
    "<li>" + name + ": " + descriptor + "</li>"
  }

  /** The list items of `names`, in the order given. */
  function Items(names: seq<string>, entries: map<string, string>): string
    requires forall name :: name in names ==> name in entries
    decreases |names|
  {
    if names == [] then ""
    else
      var last := names[|names| - 1];
      Items(names[..|names| - 1], entries) + Item(last, entries[last])
  }

  function NothingToReport(title: string): string {
    "<p>Nothing to report for " + title + ".</p>"
  }

  function Noteworthy(title: string): string {
    "<p>Noteworthy " + title + ":</p><ul>"
  }

  /** What `get_html` writes for one kind. */
  function Section(title: string, entries: map<string, string>): string {
    if entries == map[] then NothingToReport(title)
    else Noteworthy(title) + Items(Sorted(entries.Keys), entries) + "</ul>"
  }

  /** The opening paragraph, written only when `delta` is not zero;
      `preciseDelta` stands for `humanize.precisedelta`. */
  function Intro(data: Comparison, preciseDelta: int -> string): string {
    if data.delta != 0 then "<p>In the " + preciseDelta(data.delta) + " leading up to " + data.now + "...</p>"
    else ""
  }

  function Page(data: Comparison, preciseDelta: int -> string): string {
    Intro(data, preciseDelta)
      + Section("CronJobs", data.cronjobs)
      + Section("Deployments", data.deployments)
      + Section("StatefulSets", data.statefulsets)
  }

  /** The `for name in sorted(...)` loop: appends one item per name. */
  method AppendItems(html: string, names: seq<string>, entries: map<string, string>) returns (out: string)
    requires forall name :: name in names ==> name in entries
    ensures out == html + Items(names, entries)
  {
    out := html;
    for i := 0 to |names|
      invariant out == html + Items(names[..i], entries)
    {
      ghost var listed := Items(names[..i], entries);
      var item := Item(names[i], entries[names[i]]);
      out := out + item;
      assert names[..i + 1][..i] == names[..i];
      assert out == html + (listed + item);
    }
    assert names[..|names|] == names;
  }

  /** One of the three `if data[kind]: ... else: ...` blocks of `get_html`. */
  method AppendSection(html: string, title: string, entries: map<string, string>) returns (out: string)
    ensures out == html + Section(title, entries)
  {
    if entries != map[] {
      out := html + Noteworthy(title);
      out := AppendItems(out, Sorted(entries.Keys), entries);
      out := out + "</ul>";
      assert out == html + (Noteworthy(title) + Items(Sorted(entries.Keys), entries) + "</ul>");
    } else {
      out := html + NothingToReport(title);
    }
  }

  /** `get_html(data)`. */
  method GetHtml(data: Comparison, preciseDelta: int -> string) returns (html: string)
    ensures html == Page(data, preciseDelta)
  {
    html := "";
    if data.delta != 0 {
      html := html + "<p>In the " + preciseDelta(data.delta) + " leading up to " + data.now + "...</p>";
    }
    html := AppendSection(html, "CronJobs", data.cronjobs);
    html := AppendSection(html, "Deployments", data.deployments);
    html := AppendSection(html, "StatefulSets", data.statefulsets);
  }

  lemma {:induction false} ItemsAppend(a: seq<string>, b: seq<string>, entries: map<string, string>)
    requires forall name :: name in a ==> name in entries
    requires forall name :: name in b ==> name in entries
    ensures Items(a + b, entries) == Items(a, entries) + Items(b, entries)
    decreases |b|
  {
    if b != [] {
      var init, last := b[..|b| - 1], b[|b| - 1];
      assert (a + b)[..|a + b| - 1] == a + init;
      assert (a + b)[|a + b| - 1] == last;
      ItemsAppend(a, init, entries);
      calc {
        Items(a + b, entries);
        Items(a + init, entries) + Item(last, entries[last]);
        (Items(a, entries) + Items(init, entries)) + Item(last, entries[last]);
        Items(a, entries) + (Items(init, entries) + Item(last, entries[last]));
        Items(a, entries) + Items(b, entries);
      }
    } else {
      assert a + b == a;
    }
  }

  /** A kind's section lists its names in ascending order: the item of each
      name comes after the items of exactly the smaller names and before
      those of exactly the larger ones. */
  lemma SectionIsAscending(title: string, entries: map<string, string>, name: string)
    requires name in entries
    ensures Section(title, entries)
              == Noteworthy(title)
                 + (Items(Sorted(Below(entries.Keys, name)), entries)
                    + Item(name, entries[name])
                    + Items(Sorted(Above(entries.Keys, name)), entries))
                 + "</ul>"
  {
    var lo, hi := Sorted(Below(entries.Keys, name)), Sorted(Above(entries.Keys, name));
    var opening, item := Noteworthy(title), Item(name, entries[name]);
    var below, above := Items(lo, entries), Items(hi, entries);
    assert Sorted(entries.Keys) == lo + [name] + hi by {
      SortedSplit(entries.Keys, name);
    }
    assert Items(lo + [name] + hi, entries) == below + item + above by {
      assert Items([name], entries) == item by {
        assert [name][..0] == [];
      }
      ItemsAppend(lo + [name], hi, entries);
      ItemsAppend(lo, [name], entries);
    }
    assert Section(title, entries) == opening + Items(Sorted(entries.Keys), entries) + "</ul>";
  }

  /** "Nothing to report" is written for a kind exactly when it has no entries. */
  lemma NothingToReportIffEmpty(title: string, entries: map<string, string>)
    ensures Section(title, entries) == NothingToReport(title) <==> entries == map[]
  {
  }
}
