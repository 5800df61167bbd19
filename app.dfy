/** The state of the App component and of the FormAddFriend component it
    shows, with the event handlers that update them. Each handler is one
    atomic transition. The add-friend form exists only while its panel is
    open: closing the panel discards the form and its field values, and
    opening it again starts a fresh form. */
module SplitApp {
  import opened Wrappers
  import opened Friends

  /** The FormAddFriend component: the two text fields it keeps. */
  class AddFriendForm {
    var name: string
    var image: string

    constructor ()
      ensures name == "" && image == DefaultImage
    {
      name := "";
      image := DefaultImage;
    }

    /** Submitting the form. An empty name or image changes nothing and emits
        nothing. Otherwise the form emits the new record built from the fields
        and the id drawn for it, and returns its fields to their defaults. */
    method HandleSubmit(id: Uint32) returns (emitted: Option<Friend>)
      modifies this
      ensures old(name) == "" || old(image) == "" ==>
                emitted == None && name == old(name) && image == old(image)
      ensures old(name) != "" && old(image) != "" ==>
                emitted == Some(NewFriend(id, old(name), old(image)))
                && name == "" && image == DefaultImage
    {
      if name == "" || image == "" {
        return None;
      }
      emitted := Some(NewFriend(id, name, image));
      name := "";
      image := DefaultImage;
    }
  }

  /** The App component: the friend list, whether the add-friend panel is
      open, the selected friend, and the form shown in the open panel. */
  class App {
    var friends: seq<Friend>
    var showAddFriend: bool
    var selectedFriend: Option<Friend>
    var form: AddFriendForm?

    /** The form is mounted exactly while the panel is open. */
    ghost predicate Valid()
      reads this
    {
      showAddFriend <==> form != null
    }

    constructor ()
      ensures Valid()
      ensures friends == InitialFriends && !showAddFriend && selectedFriend == None
    {
      friends := InitialFriends;
      showAddFriend := false;
      selectedFriend := None;
      form := null;
    }

    /** The "Add friend" / "Close" button: opens the panel with a fresh form, or closes it. */
    method HandleAddShowFriend()
      requires Valid()
      modifies this
      ensures Valid()
      ensures showAddFriend == !old(showAddFriend)
      ensures friends == old(friends) && selectedFriend == old(selectedFriend)
      ensures showAddFriend ==> fresh(form) && form.name == "" && form.image == DefaultImage
    {
      showAddFriend := !showAddFriend;
      if showAddFriend {
        form := new AddFriendForm();
      } else {
        form := null;
      }
    }

    /** Receiving a record from the form: it goes at the end of the list and the panel closes. */
    method HandleAddFriend(friend: Friend)
      requires Valid()
      modifies this
      ensures Valid()
      ensures friends == old(friends) + [friend]
      ensures |friends| == |old(friends)| + 1 && friends[..|old(friends)|] == old(friends)
      ensures !showAddFriend
      ensures selectedFriend == old(selectedFriend)
    {
      friends := friends + [friend];
      showAddFriend := false;
      form := null;
    }

    /** A row's "Select" / "Close" button: toggles the selection of that friend and closes the panel. */
    method HandleSelection(friend: Friend)
      requires Valid()
      modifies this
      ensures Valid()
      ensures selectedFriend == SelectionAfter(old(selectedFriend), friend)
      ensures !showAddFriend
      ensures friends == old(friends)
    {
      selectedFriend := SelectionAfter(selectedFriend, friend);
      showAddFriend := false;
      form := null;
    }

    /** Submitting the open form with the id drawn for the new friend: the
        form's handler followed, when it emits a record, by HandleAddFriend. */
    method SubmitNewFriend(id: Uint32)
      requires Valid() && showAddFriend
      modifies this, form
      ensures Valid()
      ensures selectedFriend == old(selectedFriend)
      ensures old(form.name) == "" || old(form.image) == "" ==>
                friends == old(friends) && showAddFriend && form == old(form)
                && form.name == old(form.name) && form.image == old(form.image)
      ensures old(form.name) != "" && old(form.image) != "" ==>
                friends == old(friends) + [NewFriend(id, old(form.name), old(form.image))]
                && !showAddFriend
                && old(form).name == "" && old(form).image == DefaultImage
    {
      var emitted := form.HandleSubmit(id);
      if emitted.Some? {
        HandleAddFriend(emitted.value);
      }
    }
  }

  /** Pressing "Add friend" twice gives back the panel's state, the list and the
      selection. From an open panel the form is unmounted and mounted again, so
      what was typed is lost. */
  method ToggleTwice(app: App)
    requires app.Valid()
    modifies app
    ensures app.Valid()
    ensures app.showAddFriend == old(app.showAddFriend)
    ensures app.friends == old(app.friends) && app.selectedFriend == old(app.selectedFriend)
    ensures app.showAddFriend ==> fresh(app.form) && app.form.name == "" && app.form.image == DefaultImage
  {
    app.HandleAddShowFriend();
    app.HandleAddShowFriend();
  }

  /** Pressing the same row twice with nothing selected ends with nothing selected and the panel closed. */
  method SelectTwiceClears(app: App, friend: Friend)
    requires app.Valid() && app.selectedFriend == None
    modifies app
    ensures app.Valid()
    ensures app.selectedFriend == None && !app.showAddFriend
    ensures app.friends == old(app.friends)
  {
    app.HandleSelection(friend);
    app.HandleSelection(friend);
  }

  /** A session: open the panel, fill in the form, submit it, then select the new friend. */
  method AddAndSelect(name: string, image: string, id: Uint32) returns (app: App)
    requires name != "" && image != ""
    ensures app.Valid()
    ensures app.friends == InitialFriends + [NewFriend(id, name, image)]
    ensures app.selectedFriend == Some(NewFriend(id, name, image)) && !app.showAddFriend
    ensures Messages(app.friends[3].balance) == [Even]
  {
    app := new App();
    app.HandleAddShowFriend();
    app.form.name := name;
    app.form.image := image;
    app.SubmitNewFriend(id);
    app.HandleSelection(app.friends[3]);
  }
}
