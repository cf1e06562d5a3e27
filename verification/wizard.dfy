/** The wizard page model shared by the import and export wizards, the navigation of the
    wizard dialog, and the import wizard's rules: which importer and file are chosen, and
    the custom page an importer may add. */
module Wizard {
  import opened Wrappers
  import FileValidation

  datatype WizardPage = ImporterChooserPage | ImportFileChooserPage | CustomPage(name: string) | Page(id: nat)

  /** An importer, with the custom page it contributes, if any. */
  datatype Importer = Importer(id: string, customPage: Option<string>)

  /** Which `canFinish`/`hasNext` lambdas the model carries: the defaults of `WizardModel`
      or those installed by `ImporterWizardModel`. */
  datatype Rules = DefaultRules | ImportRules

  /** `MutableList.remove`: the list without the first occurrence of `x`. */
  function RemoveFirst<T(==)>(s: seq<T>, x: T): (r: seq<T>)
    ensures x !in s ==> r == s
    ensures x in s ==> |r| == |s| - 1
  {
    if s == [] then []
    else
      assert s == [s[0]] + s[1..];
      if s[0] == x then s[1..] else [s[0]] + RemoveFirst(s[1..], x)
  }

  /** Where `x` first occurs. */
  function IndexOf<T(==)>(s: seq<T>, x: T): (i: nat)
    requires x in s
    ensures i < |s| && s[i] == x && x !in s[..i]
  {
    if s[0] == x then 0
    else
      assert s == [s[0]] + s[1..];
      var j := IndexOf(s[1..], x);
      assert s[..j + 1] == [s[0]] + s[1..][..j];
      j + 1
  }

  /** The element removed is the first occurrence; all others keep their order. */
  lemma {:induction false} RemoveFirstAt<T>(s: seq<T>, x: T)
    requires x in s
    ensures RemoveFirst(s, x) == s[..IndexOf(s, x)] + s[IndexOf(s, x) + 1..]
  {
    if s[0] != x {
      var i := IndexOf(s, x);
      RemoveFirstAt(s[1..], x);
      assert s[1..][..i - 1] == s[1..i];
      assert s[1..][i..] == s[i + 1..];
      assert s[..i] == [s[0]] + s[1..i];
    }
  }

  /** Exactly one `x` goes. */
  lemma RemoveFirstMultiset<T>(s: seq<T>, x: T)
    requires x in s
    ensures multiset(RemoveFirst(s, x)) == multiset(s) - multiset{x}
  {
    RemoveFirstAt(s, x);
    var i := IndexOf(s, x);
    assert s == s[..i] + [x] + s[i + 1..];
  }

  /** Removing an element appended last, when it occurs nowhere before, undoes the append. */
  lemma {:induction false} RemoveFirstAppended<T>(s: seq<T>, x: T)
    requires x !in s
    ensures RemoveFirst(s + [x], x) == s
  {
    if s != [] {
      assert (s + [x])[1..] == s[1..] + [x];
      RemoveFirstAppended(s[1..], x);
    }
  }

  const ImportBasePages: seq<WizardPage> := [ImporterChooserPage, ImportFileChooserPage]

  function PageOf(name: Option<string>): seq<WizardPage> {
    if name.Some? then [CustomPage(name.value)] else []
  }

  class WizardModel {
    var rules: Rules
    var pages: seq<WizardPage>
    var pageCount: int
    var currentPage: int
    var needsRefresh: bool
    // ImporterWizardModel's own state
    var importer: Option<Importer>
    var file: Option<FileValidation.File>
    var customPage: Option<string>
    /** The file each importer was last handed through `setFile`. */
    var importerFiles: map<string, Option<FileValidation.File>>

    /** A fresh `WizardModel` with the default rules and no pages. */
    constructor()
      ensures rules == DefaultRules && pages == [] && pageCount == 0 && currentPage == 0
      ensures !needsRefresh && importer.None? && file.None? && customPage.None? && importerFiles == map[]
    {
      rules := DefaultRules;
      pages := [];
      pageCount := 0;
      currentPage := 0;
      needsRefresh := false;
      importer := None;
      file := None;
      customPage := None;
      importerFiles := map[];
    }

    /** `ImportFileWizard`'s model: the import rules and the importer chooser followed by
        the file chooser. */
    constructor Import()
      ensures rules == ImportRules && pages == ImportBasePages && pageCount == 2 && currentPage == 0
      ensures !needsRefresh && importer.None? && file.None? && customPage.None? && importerFiles == map[]
      ensures ImportShape()
    {
      rules := ImportRules;
      pages := ImportBasePages;
      pageCount := 2;
      currentPage := 0;
      needsRefresh := false;
      importer := None;
      file := None;
      customPage := None;
      importerFiles := map[];
    }

    method AddPage(page: WizardPage)
      modifies this
      ensures pages == old(pages) + [page] && pageCount == |pages|
      ensures currentPage == old(currentPage) && rules == old(rules) && customPage == old(customPage)
      ensures importer == old(importer) && file == old(file) && needsRefresh == old(needsRefresh)
      ensures importerFiles == old(importerFiles)
    {
      pages := pages + [page];
      pageCount := |pages|;
    }

    /** `removePage`: drops the first occurrence, leaving the current page index alone. */
    method RemovePage(page: WizardPage)
      modifies this
      ensures pages == RemoveFirst(old(pages), page) && pageCount == |pages|
      ensures currentPage == old(currentPage) && rules == old(rules) && customPage == old(customPage)
      ensures importer == old(importer) && file == old(file) && needsRefresh == old(needsRefresh)
      ensures importerFiles == old(importerFiles)
    {
      pages := RemoveFirst(pages, page);
      pageCount := |pages|;
    }

    function HasPrev(): (b: bool)
      reads this
      ensures b <==> currentPage > 0
    {
      currentPage > 0
    }

    /** The default rule: any page but the last has a next one. The import rule: the
        importer page once an importer is chosen, the file page when there is a custom page
        and a file, no other page. */
    function HasNext(): (b: bool)
      reads this
      ensures rules.DefaultRules? ==> (b <==> currentPage < |pages| - 1)
      ensures rules.ImportRules? && currentPage == 0 ==> (b <==> importer.Some?)
      ensures rules.ImportRules? && currentPage == 1 ==> (b <==> customPage.Some? && file.Some?)
      ensures rules.ImportRules? && currentPage != 0 && currentPage != 1 ==> !b
    {
      match rules
      case DefaultRules => currentPage < |pages| - 1
      case ImportRules =>
        if currentPage == 0 then importer.Some?
        else if currentPage == 1 then customPage.Some? && file.Some?
        else false
    }

    /** Always possible by default; for an import, once both an importer and a file are set. */
    function CanFinish(): (b: bool)
      reads this
      ensures rules.DefaultRules? ==> b
      ensures rules.ImportRules? ==> (b <==> importer.Some? && file.Some?)
    {
      rules.DefaultRules? || (importer.Some? && file.Some?)
    }

    predicate InRange()
      reads this
    {
      0 <= currentPage < |pages|
    }

    /** The pages of an import wizard: the two fixed pages, then the custom page if any. */
    predicate ImportShape()
      reads this
    {
      rules.ImportRules? && pages == ImportBasePages + PageOf(customPage) && pageCount == |pages|
    }

    /** The dialog's `nextPage`: one page forward when there is a next page. */
    method NextPage()
      requires InRange()
      modifies this
      ensures old(HasNext()) ==> currentPage == old(currentPage) + 1
      ensures !old(HasNext()) ==> currentPage == old(currentPage)
      ensures pages == old(pages) && rules == old(rules) && importer == old(importer)
      ensures file == old(file) && customPage == old(customPage) && pageCount == old(pageCount)
      ensures needsRefresh == old(needsRefresh) && importerFiles == old(importerFiles)
      ensures rules.DefaultRules? || old(ImportShape()) ==> InRange()
    {
      if HasNext() {
        currentPage := currentPage + 1;
      }
    }

    /** The dialog's `backPage`: one page back unless on the first. */
    method BackPage()
      requires InRange()
      modifies this
      ensures old(HasPrev()) ==> currentPage == old(currentPage) - 1
      ensures !old(HasPrev()) ==> currentPage == old(currentPage)
      ensures pages == old(pages) && rules == old(rules) && importer == old(importer)
      ensures file == old(file) && customPage == old(customPage) && pageCount == old(pageCount)
      ensures needsRefresh == old(needsRefresh) && importerFiles == old(importerFiles)
      ensures InRange()
    {
      if HasPrev() {
        currentPage := currentPage - 1;
      }
    }

    /** `adjustButtonState`: back, next and finish are disabled exactly when their rule says
        no. */
    function ButtonsDisabled(): (d: (bool, bool, bool))
      reads this
      ensures d.0 <==> currentPage <= 0
      ensures d.1 <==> !HasNext()
      ensures d.2 <==> !CanFinish()
    {
      (!HasPrev(), !HasNext(), !CanFinish())
    }

    /** The import wizard's listener on the custom page property: a page that appears is
        appended, a page that disappears is removed. */
    method SetCustomPage(newValue: Option<string>)
      modifies this
      ensures customPage == newValue
      ensures old(customPage).None? && newValue.Some? ==> pages == old(pages) + [CustomPage(newValue.value)]
      ensures old(customPage).Some? && newValue.None? ==> pages == RemoveFirst(old(pages), CustomPage(old(customPage).value))
      ensures old(customPage).None? == newValue.None? ==> pages == old(pages) && pageCount == old(pageCount)
      ensures old(customPage).None? != newValue.None? ==> pageCount == |pages|
      ensures currentPage == old(currentPage) && rules == old(rules) && importer == old(importer)
      ensures file == old(file) && needsRefresh == old(needsRefresh) && importerFiles == old(importerFiles)
    {
      var oldValue := customPage;
      customPage := newValue;
      if oldValue.None? && newValue.Some? {
        AddPage(CustomPage(newValue.value));
      } else if oldValue.Some? && newValue.None? {
        RemovePage(CustomPage(oldValue.value));
      }
    }

    /** The `importer` setter: clears the custom page, installs the new importer's one, and
        asks the dialog to refresh. */
    method SetImporter(value: Option<Importer>)
      requires ImportShape()
      modifies this
      ensures importer == value && needsRefresh
      ensures customPage == (if value.Some? then value.value.customPage else None)
      ensures pages == ImportBasePages + PageOf(customPage)
      ensures ImportShape()
      ensures currentPage == old(currentPage) && file == old(file) && importerFiles == old(importerFiles)
    {
      importer := value;
      if customPage.Some? {
        RemoveFirstAppended(ImportBasePages, CustomPage(customPage.value));
      } else {
        assert ImportBasePages + [] == ImportBasePages;
      }
      SetCustomPage(None);
      assert pages == ImportBasePages;
      if value.Some? && value.value.customPage.Some? {
        SetCustomPage(value.value.customPage);
      }
      needsRefresh := true;
    }

    /** The `file` setter: stores the file and hands it to the current importer. */
    method SetFile(value: Option<FileValidation.File>)
      modifies this
      ensures file == value
      ensures importer.Some? ==> importerFiles == old(importerFiles)[importer.value.id := value]
      ensures importer.None? ==> importerFiles == old(importerFiles)
      ensures pages == old(pages) && pageCount == old(pageCount) && currentPage == old(currentPage)
      ensures rules == old(rules) && importer == old(importer) && customPage == old(customPage)
      ensures needsRefresh == old(needsRefresh)
    {
      file := value;
      if importer.Some? {
        importerFiles := importerFiles[importer.value.id := value];
      }
    }
  }
}
