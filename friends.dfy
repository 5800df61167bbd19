/** The friend records of the expense-splitting app and the pure logic over
    them: the starting list, the record FormAddFriend builds, the selection
    updater of App, and what a Friend row shows (its selected mark and the
    balance message). */
module Friends {
  import opened Wrappers
  import opened NumberText

  /** A friend record; `balance` < 0 means the user owes the friend, > 0 that the friend owes the user. */
  datatype Friend = Friend(id: int, name: string, image: string, balance: int)

  /** The ids `crypto.getRandomValues(new Uint32Array(1))` can yield. */
  type Uint32 = x: int | 0 <= x < 0x1_0000_0000

  const InitialFriends: seq<Friend> := [
    Friend(118836, "Clark", "https://i.pravatar.cc/48?u=118836", -7),
    Friend(933372, "Sarah", "https://i.pravatar.cc/48?u=933372", 20),
    Friend(499476, "Anthony", "https://i.pravatar.cc/48?u=499476", 0)
  ]

  /** What the image field of the add-friend form holds when the form appears and after a submit. */
  const DefaultImage: string := "https://i.pravatar.cc/48?u=499476"

  /** The text placed between the entered image URL and the id. */
  const RandomQuery: string := "?random="

  /** The record a valid submit of the add-friend form emits: the id, the
      entered name, the entered URL followed by "?random=" and the id's numeral,
      and a zero balance. */
  function NewFriend(id: Uint32, name: string, image: string): (f: Friend)
    ensures f.id == id && f.name == name && f.balance == 0
    ensures |f.image| > |image| + |RandomQuery|
    ensures f.image[..|image|] == image
    ensures f.image[|image|..|image| + |RandomQuery|] == RandomQuery
    ensures ParseDecimal(f.image[|image| + |RandomQuery|..]) == Some(id as nat)
  {
    DecimalRoundTrip(id);
    var url := image + RandomQuery + Decimal(id);
    assert url[|image| + |RandomQuery|..] == Decimal(id);
    Friend(id, name, url, 0)
  }

  /** Two submits of the same URL with different ids give different image URLs. */
  lemma NewFriendImagesDiffer(id1: Uint32, id2: Uint32, name1: string, name2: string, image: string)
    requires id1 != id2
    ensures NewFriend(id1, name1, image).image != NewFriend(id2, name2, image).image
  {
  }

  /** The form's record is the entered URL, the query text and the id's numeral, and nothing else. */
  lemma NewFriendImageIff(id: Uint32, name: string, image: string, url: string)
    ensures NewFriend(id, name, image).image == url <==>
              |url| >= |image| + |RandomQuery| && url[..|image| + |RandomQuery|] == image + RandomQuery
              && ParseDecimal(url[|image| + |RandomQuery|..]) == Some(id as nat)
  {
    var k := |image| + |RandomQuery|;
    var made := NewFriend(id, name, image).image;
    assert made[..k] == image + RandomQuery;
    if |url| >= k && url[..k] == image + RandomQuery && ParseDecimal(url[k..]) == Some(id as nat) {
      ParseDecimalIff(url[k..], id);
      ParseDecimalIff(made[k..], id);
      assert url == url[..k] + url[k..];
      assert made == made[..k] + made[k..];
    }
  }

  /** A row is marked selected when there is a selection and its id equals the
      row's id. With no selection nothing is marked; a selection marks its own id and no other. */
  predicate IsSelected(selected: Option<Friend>, id: int): (marked: bool)
    ensures selected.None? ==> !marked
    ensures selected.Some? ==> (marked <==> id == selected.value.id)
  {
    selected.Some? && selected.value.id == id
  }

  /** The updater App applies to the selection when a row's button is pressed:
      pressing the selected friend's row clears the selection, any other row
      selects that friend's record. */
  function SelectionAfter(current: Option<Friend>, f: Friend): (r: Option<Friend>)
    ensures r.None? <==> IsSelected(current, f.id)
    ensures r.Some? ==> r.value == f
    ensures IsSelected(r, f.id) <==> !IsSelected(current, f.id)
    ensures forall id :: id != f.id ==> !IsSelected(r, id)
  {
    if current.Some? && current.value.id == f.id then None else Some(f)
  }

  /** Pressing the same row twice gives back what a press from the other state
      gives; starting with no selection, it ends with no selection. */
  lemma SelectTwice(current: Option<Friend>, f: Friend)
    ensures SelectionAfter(SelectionAfter(current, f), f) == (if IsSelected(current, f.id) then Some(f) else None)
  {
  }

  /** `Math.abs` on an integer: the larger of x and -x. */
  function Abs(x: int): (a: nat)
    ensures a >= x && a >= -x
    ensures a == x || a == -x
  {
    if x < 0 then -x else x
  }

  /** A paragraph a Friend row shows about the balance. */
  datatype BalanceMessage =
    | YouOwe(amount: nat)     // "You owe <name> <amount>₹"
    | OwesYou(amount: nat)    // "<name> owes you <amount>₹"
    | Even                    // "You and <name> are even"

  /** The signed balance a message stands for. */
  function Signed(m: BalanceMessage): (balance: int) {
    match m
    case YouOwe(a) => -(a as int)
    case OwesYou(a) => a
    case Even => 0
  }

  /** The paragraphs a row renders: three independent guards on the balance,
      each contributing its paragraph when it holds. Exactly one holds, and the
      paragraph shown gives the balance back. */
  function Messages(balance: int): (ms: seq<BalanceMessage>)
    ensures |ms| == 1
    ensures ms[0].YouOwe? <==> balance < 0
    ensures ms[0].OwesYou? <==> balance > 0
    ensures ms[0].Even? <==> balance == 0
    ensures !ms[0].Even? ==> ms[0].amount == Abs(balance) && ms[0].amount > 0
    ensures Signed(ms[0]) == balance
  {
    (if balance < 0 then [YouOwe(Abs(balance))] else [])
    + (if balance > 0 then [OwesYou(balance)] else [])
    + (if balance == 0 then [Even] else [])
  }

  /** No two records of the list share an id. The app never enforces this. */
  predicate UniqueIds(fs: seq<Friend>) {
    forall i, j :: 0 <= i < j < |fs| ==> fs[i].id != fs[j].id
  }

  predicate IdIn(fs: seq<Friend>, id: int) {
    exists i :: 0 <= i < |fs| && fs[i].id == id
  }

  /** Appending a record keeps the ids unique exactly when its id is new. */
  lemma AppendUniqueIds(fs: seq<Friend>, f: Friend)
    ensures UniqueIds(fs + [f]) <==> UniqueIds(fs) && !IdIn(fs, f.id)
  {
    var gs := fs + [f];
    if UniqueIds(gs) {
      assert UniqueIds(fs) by {
        forall i, j | 0 <= i < j < |fs| ensures fs[i].id != fs[j].id {
          assert gs[i] == fs[i] && gs[j] == fs[j];
        }
      }
      forall i | 0 <= i < |fs| ensures fs[i].id != f.id {
        assert gs[i] == fs[i] && gs[|fs|] == f;
      }
    }
  }

  /** Positions of the rows shown as selected: every listed position is a row
      whose id the selection marks, every such row is listed, and with no
      selection there is none. */
  function SelectedRows(fs: seq<Friend>, selected: Option<Friend>): (rows: set<nat>)
    ensures forall i :: i in rows ==> i < |fs| && IsSelected(selected, fs[i].id)
    ensures forall i: nat :: i < |fs| && IsSelected(selected, fs[i].id) ==> i in rows
    ensures selected.None? ==> rows == {}
  {
    set i: nat | i < |fs| && IsSelected(selected, fs[i].id)
  }

  /** With unique ids at most one row is shown as selected. */
  lemma AtMostOneSelectedRow(fs: seq<Friend>, selected: Option<Friend>)
    requires UniqueIds(fs)
    ensures |SelectedRows(fs, selected)| <= 1
  {
    var rows := SelectedRows(fs, selected);
    if rows != {} {
      var k :| k in rows;
      assert rows == {k};
    }
  }

  /** After pressing row k (ids unique), that row alone is marked, or none if it was marked before. */
  lemma RowsAfterSelection(fs: seq<Friend>, current: Option<Friend>, k: nat)
    requires UniqueIds(fs) && k < |fs|
    ensures SelectedRows(fs, SelectionAfter(current, fs[k])) ==
              if IsSelected(current, fs[k].id) then {} else {k}
  {
  }

  /** The app does not prevent a duplicate id; then selecting one record marks two rows. */
  lemma DuplicateIdMarksTwoRows()
    ensures var fs := InitialFriends + [NewFriend(118836, "Dan", DefaultImage)];
            !UniqueIds(fs) && 0 in SelectedRows(fs, Some(InitialFriends[0]))
            && 3 in SelectedRows(fs, Some(InitialFriends[0]))
  {
    var fs := InitialFriends + [NewFriend(118836, "Dan", DefaultImage)];
    assert fs[0].id == fs[3].id;
  }

  /** The starting list: Clark at -7 (the user owes Clark 7), Sarah at 20, Anthony at 0, in that order, with distinct ids. */
  lemma InitialFriendsFacts()
    ensures |InitialFriends| == 3 && UniqueIds(InitialFriends)
    ensures InitialFriends[0].name == "Clark" && Messages(InitialFriends[0].balance) == [YouOwe(7)]
    ensures InitialFriends[1].name == "Sarah" && Messages(InitialFriends[1].balance) == [OwesYou(20)]
    ensures InitialFriends[2].name == "Anthony" && Messages(InitialFriends[2].balance) == [Even]
  {
  }
}
