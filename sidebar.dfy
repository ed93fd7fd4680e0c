/** The navigation sidebar of components/Sidebar.js: the bank menu derived
    from the video list (distinct banks in first-seen order, unlabelled banks
    dropped, each mapped to its label and a path), the two admin entries a
    logged-in user gets, and the state the toggle, logout and user-loading
    handlers update. */
module Sidebar {
  import opened Wrappers
  import opened Json
  import AuthController
  import AddVideo

  /** A video as the menu derivation sees it: only its bank code is read. */
  datatype Video = Video(title: string, bank: string)

  datatype MenuEntry = MenuEntry(name: string, path: string)

  /** `BANK_LABELS`: the display name of each known bank code. */
  const BankLabels: map<string, string> := map[
    "prata" := "Prata Digital",
    "di" := "DI+",
    "crefisa" := "Crefisa",
    "unno" := "Unno",
    "vctex" := "VCTEX",
    "hub_credito" := "Hub Crédito",
    "corbee" := "Sistema de Comssionamento",
    "ph_tech" := "PH Tech",
    "grandino" := "Grandino",
    "lotus" := "Lotus",
    "v8" := "V8",
    "granapix" := "Granapix",
    "icred" := "ICred",
    "novo_saque" := "Novo Saque"
  ]

  const AddVideoEntry: MenuEntry := MenuEntry("Adicionar Vídeo", "/adicionar-video")
  const ManageVideosEntry: MenuEntry := MenuEntry("Gerenciar Videos", "/gerenciar-videos")

  // ---------------------------------------------------------------------------
  // Distinct banks

  predicate Distinct<T(==)>(s: seq<T>) {
    forall i, j :: 0 <= i < j < |s| ==> s[i] != s[j]
  }

  /** The position of the first `x` in `s`. */
  function FirstIndex<T(==)>(s: seq<T>, x: T): (r: nat)
    requires x in s
    ensures r < |s| && s[r] == x && x !in s[..r]
  {
    if s[0] == x then 0 else 1 + FirstIndex(s[1..], x)
  }

  /** `data.map(item => item.bank)`. */
  function Banks(videos: seq<Video>): (r: seq<string>)
    ensures |r| == |videos|
    ensures forall i :: 0 <= i < |r| ==> r[i] == videos[i].bank
  {
    seq(|videos|, i requires 0 <= i < |videos| => videos[i].bank)
  }

  /** `[...new Set(s)]`: each value once, in the order it was first added. */
  function Dedup(s: seq<string>): (r: seq<string>)
    ensures Distinct(r)
    ensures forall x :: x in r <==> x in s
    ensures |r| <= |s|
  {
    if s == [] then []
    else
      var r := Dedup(s[..|s| - 1]);
      assert forall x :: x in s <==> x in s[..|s| - 1] || x == s[|s| - 1] by {
        assert s == s[..|s| - 1] + [s[|s| - 1]];
      }
      if s[|s| - 1] in r then r else r + [s[|s| - 1]]
  }

  /** Looking a value up in a longer list finds the same first position. */
  lemma {:induction false} FirstIndexExtend(s: seq<string>, x: string, y: string)
    requires y in s
    ensures y in s + [x] && FirstIndex(s + [x], y) == FirstIndex(s, y)
  {
    assert (s + [x])[0] == s[0];
    if s[0] != y {
      assert s == [s[0]] + s[1..];
      assert (s + [x])[1..] == s[1..] + [x];
      FirstIndexExtend(s[1..], x, y);
    }
  }

  /** A value first added at the end is found there. */
  lemma {:induction false} FirstIndexLast(p: seq<string>, x: string)
    requires x !in p
    ensures FirstIndex(p + [x], x) == |p|
  {
    if p != [] {
      assert (p + [x])[0] == p[0];
      assert (p + [x])[1..] == p[1..] + [x];
      FirstIndexLast(p[1..], x);
    }
  }

  /** The distinct banks come in the order of their first occurrence. */
  lemma {:induction false} DedupOrder(s: seq<string>)
    ensures forall i, j :: 0 <= i < j < |Dedup(s)| ==>
      FirstIndex(s, Dedup(s)[i]) < FirstIndex(s, Dedup(s)[j])
  {
    if s != [] {
      var p, x := s[..|s| - 1], s[|s| - 1];
      assert s == p + [x];
      DedupOrder(p);
      var r := Dedup(p);
      forall y | y in r
        ensures FirstIndex(s, y) == FirstIndex(p, y) < |p|
      {
        FirstIndexExtend(p, x, y);
      }
      if x !in r {
        assert Dedup(s) == r + [x];
        FirstIndexLast(p, x);
      }
    }
  }

  // ---------------------------------------------------------------------------
  // Labelled banks and their entries

  /** `.filter(bank => BANK_LABELS[bank])`: labels are non-empty, so a bank is
      kept exactly when the table has it. */
  function Labelled(banks: seq<string>, labels: map<string, string>): (r: seq<string>)
    ensures forall b :: b in r <==> b in banks && b in labels
    ensures |r| <= |banks|
  {
    if banks == [] then []
    else
      var p, x := banks[..|banks| - 1], banks[|banks| - 1];
      assert forall b :: b in banks <==> b in p || b == x by {
        assert banks == p + [x];
      }
      var r := Labelled(p, labels);
      if x in labels then r + [x] else r
  }

  function Lower(c: char): char {
    if 'A' <= c <= 'Z' then (c as int + 32) as char else c
  }

  /** The characters `\s` matches in a JavaScript regular expression. */
  predicate IsJsSpace(c: char) {
    || c == '\t' || c == '\n' || c == '\U{000B}' || c == '\U{000C}' || c == '\r' || c == ' '
    || c == '\U{00A0}' || c == '\U{1680}' || '\U{2000}' <= c <= '\U{200A}'
    || c == '\U{2028}' || c == '\U{2029}' || c == '\U{202F}' || c == '\U{205F}'
    || c == '\U{3000}' || c == '\U{FEFF}'
  }

  function LowerCase(s: string): (r: string)
    ensures |r| == |s|
    ensures forall i :: 0 <= i < |s| ==> r[i] == Lower(s[i])
  {
    seq(|s|, i requires 0 <= i < |s| => Lower(s[i]))
  }

  /** `s` without its leading whitespace. */
  function DropSpaces(s: string): (r: string)
    ensures |r| <= |s|
    ensures r == [] || !IsJsSpace(r[0])
  {
    if s != [] && IsJsSpace(s[0]) then DropSpaces(s[1..]) else s
  }

  /** `s.replace(/\s+/g, "-")`. */
  function Hyphenate(s: string): (r: string)
    ensures |r| <= |s|
    decreases |s|
  {
    if s == [] then []
    else if IsJsSpace(s[0]) then "-" + Hyphenate(DropSpaces(s[1..]))
    else [s[0]] + Hyphenate(s[1..])
  }

  /** The menu path of a bank code. */
  function PathOf(bank: string): (r: string)
    ensures r != [] && r[0] == '/' && |r| <= |bank| + 1
  {
    "/" + Hyphenate(LowerCase(bank))
  }

  function Entry(bank: string): (r: MenuEntry)
    requires bank in BankLabels
    ensures r.name == BankLabels[bank] && r.path == "/" + bank
  {
    LabelPath(bank);
    MenuEntry(BankLabels[bank], PathOf(bank))
  }

  /** `.map(bank => ({name, path}))` over labelled banks. */
  function Entries(banks: seq<string>): (r: seq<MenuEntry>)
    requires forall b :: b in banks ==> b in BankLabels
    ensures |r| == |banks|
    ensures forall i :: 0 <= i < |banks| ==> r[i] == Entry(banks[i])
  {
    seq(|banks|, i requires 0 <= i < |banks| => Entry(banks[i]))
  }

  /** The banks that get a menu entry, in menu order: no more than there are
      videos, and each one has a label. */
  function MenuBanks(videos: seq<Video>): (r: seq<string>)
    ensures |r| <= |videos|
    ensures forall i :: 0 <= i < |r| ==> r[i] in BankLabels
  {
    Labelled(Dedup(Banks(videos)), BankLabels)
  }

  /** The menu `loadVideos` stores for a fetched video list. */
  function MenuItems(videos: seq<Video>): (r: seq<MenuEntry>)
    ensures |r| == |MenuBanks(videos)|
    ensures forall i :: 0 <= i < |r| ==>
      (MenuBanks(videos)[i] in BankLabels &&
       r[i].name == BankLabels[MenuBanks(videos)[i]] && r[i].path == "/" + MenuBanks(videos)[i])
  {
    Entries(MenuBanks(videos))
  }

  /** `extendedMenuItems`. */
  function ExtendedMenu(menu: seq<MenuEntry>, currentUser: Json): (r: seq<MenuEntry>)
    ensures |menu| <= |r| && r[..|menu|] == menu
    ensures |r| == |menu| + 2 <==> Truthy(currentUser)
    ensures |r| == |menu| <==> !Truthy(currentUser)
  {
    if Truthy(currentUser) then menu + [AddVideoEntry, ManageVideosEntry] else menu
  }

  // ---------------------------------------------------------------------------
  // The component's state

  class SidebarState {
    var isOpen: bool
    var error: Option<string>
    var currentUser: Json
    var menuItems: seq<MenuEntry>
    const auth: AuthController.Controller

    constructor (auth: AuthController.Controller)
      ensures this.auth == auth
      ensures !isOpen && error == None && currentUser == JNull && menuItems == []
    {
      this.auth := auth;
      isOpen, error, currentUser, menuItems := false, None, JNull, [];
    }

    /** The entries rendered in the open menu: the stored menu, followed by
        the two management entries exactly when a user is logged in. */
    function Rendered(): (r: seq<MenuEntry>)
      reads this
      ensures |menuItems| <= |r| && r[..|menuItems|] == menuItems
      ensures Truthy(currentUser) ==> r[|menuItems|..] == [AddVideoEntry, ManageVideosEntry]
      ensures !Truthy(currentUser) ==> r == menuItems
    {
      ExtendedMenu(menuItems, currentUser)
    }

    /** `loadVideos`: a failed fetch rejects before the menu is set. */
    method LoadVideos(fetched: Result<seq<Video>>)
      modifies this
      ensures menuItems == (if fetched.Success? then MenuItems(fetched.value) else old(menuItems))
      ensures isOpen == old(isOpen) && error == old(error) && currentUser == old(currentUser)
    {
      if fetched.Failure? {
        return;
      }
      var banks := Dedup(Banks(fetched.value));
      menuItems := Entries(Labelled(banks, BankLabels));
    }

    /** `handleToggle`: flips the menu and returns the value handed to `onToggle`. */
    method HandleToggle() returns (newState: bool)
      modifies this
      ensures newState == !old(isOpen) && isOpen == newState
      ensures error == old(error) && currentUser == old(currentUser) && menuItems == old(menuItems)
    {
      newState := !isOpen;
      isOpen := newState;
    }

    /** `handleLogout`: ends the session and forgets the user. */
    method HandleLogout()
      modifies this, auth.storage
      ensures auth.storage.items == AuthController.WithoutSession(old(auth.storage.items))
      ensures currentUser == JNull && Rendered() == menuItems
      ensures isOpen == old(isOpen) && error == old(error) && menuItems == old(menuItems)
    {
      auth.ClearAuthData();
      currentUser := JNull;
    }

    /** `fetchUserData`: loads the user when a token is stored; a thrown error
        is kept as the message. */
    method FetchUserData(backend: AuthController.Request -> AuthController.Response)
      modifies this
      ensures var data := AuthController.ReadAuthData(auth.storage.items);
        && (data.Failure? ==> currentUser == old(currentUser) && error == Some(data.error))
        && (data.Success? && AuthController.MissingToken(data.value.token) ==>
              currentUser == old(currentUser) && error == old(error))
        && (data.Success? && !AuthController.MissingToken(data.value.token) ==>
              var user := AuthController.CurrentUserOutcome(auth.storage.items, backend);
              if user.Success? then currentUser == user.value && error == old(error)
              else currentUser == old(currentUser) && error == Some(user.error))
      ensures isOpen == old(isOpen) && menuItems == old(menuItems)
    {
      var data := auth.GetAuthData();
      if data.Failure? {
        error := Some(data.error);
        return;
      }
      if !AuthController.MissingToken(data.value.token) {
        var user := auth.GetCurrentUser(backend);
        if user.Success? {
          currentUser := user.value;
        } else {
          error := Some(user.error);
        }
      }
    }
  }

  // ---------------------------------------------------------------------------
  // Properties of the menu

  /** The menu's banks are distinct, are exactly the labelled banks of the
      list, and keep the order in which the list first names them. */
  lemma MenuBanksShape(videos: seq<Video>)
    ensures Distinct(MenuBanks(videos))
    ensures forall b :: b in MenuBanks(videos) <==> b in Banks(videos) && b in BankLabels
    ensures forall i, j :: 0 <= i < j < |MenuBanks(videos)| ==>
      FirstIndex(Banks(videos), MenuBanks(videos)[i]) < FirstIndex(Banks(videos), MenuBanks(videos)[j])
  {
    LabelledOrder(Banks(videos), BankLabels);
  }

  /** Filtering the distinct banks keeps them distinct and in the order of
      their first occurrence in the full list. */
  lemma {:induction false} LabelledOrder(s: seq<string>, labels: map<string, string>)
    ensures Distinct(Labelled(Dedup(s), labels))
    ensures forall i, j :: 0 <= i < j < |Labelled(Dedup(s), labels)| ==>
      FirstIndex(s, Labelled(Dedup(s), labels)[i]) < FirstIndex(s, Labelled(Dedup(s), labels)[j])
  {
    if s != [] {
      var p, x := s[..|s| - 1], s[|s| - 1];
      LabelledOrder(p, labels);
      var l := Labelled(Dedup(p), labels);
      LabelledDedupLast(s, labels);
      LastSplit(s);
      OrderStep(p, x, l, Labelled(Dedup(s), labels), x !in l && x in labels);
    }
  }

  /** One step of `LabelledOrder`: the list grows by `x`, and the filtered
      distinct banks grow by `x` exactly when `keep`. */
  lemma OrderStep(p: seq<string>, x: string, l: seq<string>, m: seq<string>, keep: bool)
    requires Distinct(l) && forall i :: 0 <= i < |l| ==> l[i] in p
    requires forall i, j :: 0 <= i < j < |l| ==> FirstIndex(p, l[i]) < FirstIndex(p, l[j])
    requires m == if keep then l + [x] else l
    requires keep ==> x !in p
    ensures Distinct(m)
    ensures forall i, j :: 0 <= i < j < |m| ==> FirstIndex(p + [x], m[i]) < FirstIndex(p + [x], m[j])
  {
    OrderExtend(p, x, l);
    if keep {
      LabelledAppend(p + [x], l, x);
    }
  }

  /** How one more bank at the end of the list changes the filtered distinct
      banks. */
  lemma LabelledDedupLast(s: seq<string>, labels: map<string, string>)
    requires s != []
    ensures var l := Labelled(Dedup(s[..|s| - 1]), labels);
      Labelled(Dedup(s), labels) == if s[|s| - 1] in l || s[|s| - 1] !in labels then l else l + [s[|s| - 1]]
  {
    var p, x := s[..|s| - 1], s[|s| - 1];
    var r := Dedup(p);
    if x !in r {
      assert (r + [x])[..|r|] == r;
    }
  }

  lemma LastSplit(s: seq<string>)
    requires s != []
    ensures s == s[..|s| - 1] + [s[|s| - 1]]
  {
  }

  /** Banks already seen keep their first position when the list grows, and
      a bank not seen before is first found at the end. */
  lemma OrderExtend(p: seq<string>, x: string, l: seq<string>)
    requires forall i :: 0 <= i < |l| ==> l[i] in p
    requires forall i, j :: 0 <= i < j < |l| ==> FirstIndex(p, l[i]) < FirstIndex(p, l[j])
    ensures forall y :: y in l ==> y in p + [x] && FirstIndex(p + [x], y) < |p|
    ensures forall i, j :: 0 <= i < j < |l| ==> FirstIndex(p + [x], l[i]) < FirstIndex(p + [x], l[j])
    ensures x !in p ==> FirstIndex(p + [x], x) == |p|
  {
    forall y | y in l
      ensures y in p + [x] && FirstIndex(p + [x], y) == FirstIndex(p, y) < |p|
    {
      FirstIndexExtend(p, x, y);
    }
    if x !in p {
      FirstIndexLast(p, x);
    }
  }

  /** One step of `LabelledOrder`: a new bank appended after the others. */
  lemma LabelledAppend(s: seq<string>, l: seq<string>, x: string)
    requires Distinct(l) && x !in l && x in s
    requires forall y :: y in l ==> y in s && FirstIndex(s, y) < FirstIndex(s, x)
    requires forall i, j :: 0 <= i < j < |l| ==> FirstIndex(s, l[i]) < FirstIndex(s, l[j])
    ensures Distinct(l + [x])
    ensures forall i, j :: 0 <= i < j < |l + [x]| ==> FirstIndex(s, (l + [x])[i]) < FirstIndex(s, (l + [x])[j])
  {
    var m := l + [x];
    forall i, j | 0 <= i < j < |m|
      ensures m[i] != m[j] && FirstIndex(s, m[i]) < FirstIndex(s, m[j])
    {
      assert m[i] == l[i];
      if j < |l| {
        assert m[j] == l[j];
      } else {
        assert m[i] in l;
      }
    }
  }

  /** Every entry is the label and path of a bank in the list that has a
      label, and every such bank has its entry. */
  lemma MenuEntriesFromLabelledBanks(videos: seq<Video>)
    ensures forall e :: e in MenuItems(videos) <==>
      exists k :: 0 <= k < |videos| && videos[k].bank in BankLabels && e == Entry(videos[k].bank)
  {
    var bs := MenuBanks(videos);
    var menu := MenuItems(videos);
    forall e | e in menu
      ensures exists k :: 0 <= k < |videos| && videos[k].bank in BankLabels && e == Entry(videos[k].bank)
    {
      var i :| 0 <= i < |menu| && menu[i] == e;
      assert bs[i] in bs;
      assert bs[i] in Banks(videos);
      var k :| 0 <= k < |videos| && Banks(videos)[k] == bs[i];
      assert videos[k].bank == bs[i];
    }
    forall k | 0 <= k < |videos| && videos[k].bank in BankLabels
      ensures Entry(videos[k].bank) in menu
    {
      assert Banks(videos)[k] == videos[k].bank;
      assert videos[k].bank in bs;
      var i :| 0 <= i < |bs| && bs[i] == videos[k].bank;
      assert menu[i] == Entry(videos[k].bank);
    }
  }

  /** Entries never outnumber distinct banks, nor those the videos. */
  lemma MenuCounts(videos: seq<Video>)
    ensures |MenuItems(videos)| <= |Dedup(Banks(videos))| <= |videos|
  {
  }

  // ---------------------------------------------------------------------------
  // Properties of the paths

  /** Lower-casing leaves a string with no ASCII capital as it is. */
  lemma LowerCaseNoop(s: string)
    requires forall c :: c in s ==> !('A' <= c <= 'Z')
    ensures LowerCase(s) == s
  {
    forall i | 0 <= i < |s|
      ensures LowerCase(s)[i] == s[i]
    {
      assert s[i] in s;
    }
  }

  /** A string with no whitespace is not changed by hyphenation. */
  lemma {:induction false} HyphenateNoop(s: string)
    requires forall c :: c in s ==> !IsJsSpace(c)
    ensures Hyphenate(s) == s
    decreases |s|
  {
    if s != [] {
      HyphenateNoop(s[1..]);
      assert s == [s[0]] + s[1..];
    }
  }

  /** A hyphenated path has no whitespace left in it. */
  lemma {:induction false} HyphenateNoSpaces(s: string)
    ensures forall c :: c in Hyphenate(s) ==> !IsJsSpace(c)
    decreases |s|
  {
    if s != [] {
      if IsJsSpace(s[0]) {
        HyphenateNoSpaces(DropSpaces(s[1..]));
      } else {
        HyphenateNoSpaces(s[1..]);
      }
    }
  }

  /** A maximal run of whitespace becomes one `-`. */
  lemma {:induction false} HyphenateRun(a: string, w: string, b: string)
    requires a == [] || !IsJsSpace(a[|a| - 1])
    requires w != [] && forall c :: c in w ==> IsJsSpace(c)
    requires b == [] || !IsJsSpace(b[0])
    ensures Hyphenate(a + w + b) == Hyphenate(a) + "-" + Hyphenate(b)
    decreases |a|
  {
    if a == [] {
      assert a + w + b == w + b;
      HyphenateRunFirst(w, b);
    } else {
      var head, a' := HyphenateFront(a, w + b);
      HyphenateRun(a', w, b);
      SeqAssoc3(a, w, b);
      SeqAssoc3(a', w, b);
      JoinShift(Hyphenate(a), Hyphenate(a'), Hyphenate(a + w + b), Hyphenate(a' + w + b), head, Hyphenate(b));
    }
  }

  /** The first output piece of hyphenating `a`, and what is left of `a`;
      both the same whatever text follows `a`. */
  lemma HyphenateFront(a: string, t: string) returns (head: string, a': string)
    requires a != [] && !IsJsSpace(a[|a| - 1])
    ensures |a'| < |a| && (a' == [] || !IsJsSpace(a'[|a'| - 1]))
    ensures Hyphenate(a) == head + Hyphenate(a')
    ensures Hyphenate(a + t) == head + Hyphenate(a' + t)
  {
    if IsJsSpace(a[0]) {
      head := "-";
      a' := HyphenateSpaceStep(a, t);
    } else {
      head := [a[0]];
      a' := a[1..];
      HyphenateCharStep(a, t);
    }
  }

  lemma JoinShift(x: string, y: string, full: string, full': string, head: string, z: string)
    requires x == head + y && full == head + full' && full' == y + "-" + z
    ensures full == x + "-" + z
  {
    SeqAssoc4(head, y, "-", z);
  }

  /** A leading non-space character is kept whatever follows. */
  lemma HyphenateCharStep(a: string, t: string)
    requires a != [] && !IsJsSpace(a[0])
    ensures Hyphenate(a) == [a[0]] + Hyphenate(a[1..])
    ensures Hyphenate(a + t) == [a[0]] + Hyphenate(a[1..] + t)
  {
    assert (a + t)[0] == a[0] && (a + t)[1..] == a[1..] + t;
  }

  lemma SeqAssoc4(p: string, q: string, r: string, s: string)
    ensures p + (q + r + s) == (p + q) + r + s
  {
  }

  /** A leading whitespace run becomes one `-`. */
  lemma HyphenateRunFirst(w: string, b: string)
    requires w != [] && forall c :: c in w ==> IsJsSpace(c)
    requires b == [] || !IsJsSpace(b[0])
    ensures Hyphenate(w + b) == "-" + Hyphenate(b)
  {
    assert IsJsSpace((w + b)[0]) && (w + b)[1..] == w[1..] + b;
    DropSpacesRun(w[1..], b);
  }

  /** Hyphenating text that starts with whitespace and ends without it: the
      leading run becomes `-` whatever follows. */
  lemma HyphenateSpaceStep(a: string, t: string) returns (a': string)
    requires a != [] && IsJsSpace(a[0]) && !IsJsSpace(a[|a| - 1])
    ensures a' != [] && |a'| < |a| && !IsJsSpace(a'[|a'| - 1])
    ensures Hyphenate(a) == "-" + Hyphenate(a')
    ensures Hyphenate(a + t) == "-" + Hyphenate(a' + t)
  {
    a' := DropSpaces(a[1..]);
    assert (a + t)[1..] == a[1..] + t;
    DropSpacesPrefix(a[1..], t);
    DropSpacesSuffix(a[1..]);
  }

  /** Dropping a whitespace run in front of text that does not start with
      whitespace leaves the text. */
  lemma {:induction false} DropSpacesRun(w: string, b: string)
    requires forall c :: c in w ==> IsJsSpace(c)
    requires b == [] || !IsJsSpace(b[0])
    ensures DropSpaces(w + b) == b
    decreases |w|
  {
    if w != [] {
      assert (w + b)[1..] == w[1..] + b;
      DropSpacesRun(w[1..], b);
    } else {
      assert w + b == b;
    }
  }

  /** Leading whitespace of `a` is dropped the same whatever follows `a`, as
      long as `a` does not end in whitespace. */
  lemma {:induction false} DropSpacesPrefix(a: string, t: string)
    requires a != [] && !IsJsSpace(a[|a| - 1])
    ensures DropSpaces(a + t) == DropSpaces(a) + t
    decreases |a|
  {
    if IsJsSpace(a[0]) {
      assert |a| > 1;
      assert (a + t)[1..] == a[1..] + t;
      DropSpacesPrefix(a[1..], t);
    }
  }

  /** Dropping leading whitespace from text that does not end in whitespace
      keeps its last character. */
  lemma {:induction false} DropSpacesSuffix(a: string)
    requires a != [] && !IsJsSpace(a[|a| - 1])
    ensures DropSpaces(a) != [] && DropSpaces(a)[|DropSpaces(a)| - 1] == a[|a| - 1]
    decreases |a|
  {
    if IsJsSpace(a[0]) {
      DropSpacesSuffix(a[1..]);
    }
  }

  /** A code made of lower-case letters, digits and `_`. */
  predicate PlainCode(b: string) {
    forall c :: c in b ==> 'a' <= c <= 'z' || '0' <= c <= '9' || c == '_'
  }

  lemma LabelCodesPlain()
    ensures forall b :: b in BankLabels ==> PlainCode(b)
  {
  }

  /** A plain code is its own path after `/`. */
  lemma PlainPath(b: string)
    requires PlainCode(b)
    ensures PathOf(b) == "/" + b
  {
    LowerCaseNoop(b);
    HyphenateNoop(b);
  }

  /** For the codes of the label table the path is `/` and the code. */
  lemma LabelPath(b: string)
    requires b in BankLabels
    ensures PathOf(b) == "/" + b
  {
    LabelCodesPlain();
    PlainPath(b);
  }

  /** Distinct banks give distinct entries, so the menu repeats no entry. */
  lemma MenuNoRepeats(videos: seq<Video>)
    ensures Distinct(MenuItems(videos))
  {
    MenuBanksShape(videos);
    var bs := MenuBanks(videos);
    var menu := MenuItems(videos);
    forall i, j | 0 <= i < j < |menu|
      ensures menu[i] != menu[j]
    {
      LabelPath(bs[i]);
      LabelPath(bs[j]);
      assert bs[i] != bs[j];
      assert menu[i].path[1..] == bs[i] && menu[j].path[1..] == bs[j];
    }
  }

  /** With a user, the two admin entries follow the bank menu; without one
      the bank menu is shown as it is. */
  lemma ExtendedMenuShape(menu: seq<MenuEntry>, currentUser: Json)
    ensures Truthy(currentUser) ==>
      (ExtendedMenu(menu, currentUser)[..|menu|] == menu
       && ExtendedMenu(menu, currentUser)[|menu|..] == [AddVideoEntry, ManageVideosEntry])
    ensures !Truthy(currentUser) ==> ExtendedMenu(menu, currentUser) == menu
  {
  }

  lemma AdminPathsUnlabelled()
    ensures AddVideoEntry.path[1..] !in BankLabels && ManageVideosEntry.path[1..] !in BankLabels
  {
    assert AddVideoEntry.path[1..] == "adicionar-video";
    assert ManageVideosEntry.path[1..] == "gerenciar-videos";
  }

  /** No bank entry has an admin path. */
  lemma BankPathsNotAdminPaths(videos: seq<Video>)
    ensures forall e :: e in MenuItems(videos) ==>
      e.path != AddVideoEntry.path && e.path != ManageVideosEntry.path
  {
    AdminPathsUnlabelled();
    var bs := MenuBanks(videos);
    var menu := MenuItems(videos);
    forall i | 0 <= i < |menu|
      ensures menu[i].path != AddVideoEntry.path && menu[i].path != ManageVideosEntry.path
    {
      assert bs[i] in BankLabels;
      LabelPath(bs[i]);
      assert menu[i].path[1..] == bs[i];
      assert bs[i] != AddVideoEntry.path[1..] && bs[i] != ManageVideosEntry.path[1..];
    }
  }

  /** The admin entries never collide with a bank entry, so the rendered menu
      repeats no entry. */
  lemma ExtendedMenuNoRepeats(videos: seq<Video>, currentUser: Json)
    ensures Distinct(ExtendedMenu(MenuItems(videos), currentUser))
  {
    MenuNoRepeats(videos);
    BankPathsNotAdminPaths(videos);
    var menu := MenuItems(videos);
    var ext := ExtendedMenu(menu, currentUser);
    if Truthy(currentUser) {
      forall i, j | 0 <= i < j < |ext|
        ensures ext[i] != ext[j]
      {
        if j < |menu| {
          assert ext[i] == menu[i] && ext[j] == menu[j];
        } else if i < |menu| {
          assert ext[i] == menu[i] && ext[i] in menu;
        }
      }
    }
  }

  /** Every bank the upload form offers has a label, so videos of any offered
      bank show up in the menu. */
  lemma OfferedBanksLabelled()
    ensures forall b :: b in AddVideo.BankOptions ==> b in BankLabels
  {
  }
}
