/** The team-name editor in web/src/components/dashboard/Header.tsx: clicking the
    name opens an input; Enter or leaving it saves, Escape abandons. A save sends
    the new name to the `updateTentName` action unless it is blank or unchanged,
    and puts the old name back if the action reports failure. The action's
    answer is a parameter. */
module Header {
  import opened Seqs
  import opened Text

  /** The server call `updateTentName(tentId, name)`. */
  datatype RenameCall = RenameCall(tentId: string, newName: string)

  class TeamNameEditor {
    const tentId: string
    const tentName: string
    var isEditingName: bool
    var name: string

    constructor (tentId: string, tentName: string)
      ensures this.tentId == tentId && this.tentName == tentName
      ensures !isEditingName && name == tentName
    {
      this.tentId := tentId;
      this.tentName := tentName;
      isEditingName := false;
      name := tentName;
    }

    /** Clicking the name. */
    method StartEditing()
      modifies this
      ensures isEditingName && name == old(name)
    {
      isEditingName := true;
    }

    /** Typing in the input. */
    method ChangeName(text: string)
      modifies this
      ensures name == text && isEditingName == old(isEditingName)
    {
      name := text;
    }

    /** `handleSaveName`; `serverOk` is the `success` the action answers with. */
    method SaveName(serverOk: bool) returns (call: Option<RenameCall>)
      modifies this
      ensures Blank(old(name)) ==> call == None && isEditingName == old(isEditingName) && name == old(name)
      ensures !Blank(old(name)) ==> !isEditingName
      ensures !Blank(old(name)) && old(name) == tentName ==> call == None && name == old(name)
      ensures !Blank(old(name)) && old(name) != tentName ==>
        && call == Some(RenameCall(tentId, old(name)))
        && name == (if serverOk then old(name) else tentName)
    {
      TrimEmptyIffBlank(name);
      if Trim(name) == "" {
        return None;
      }
      isEditingName := false;
      if name == tentName {
        return None;
      }
      call := Some(RenameCall(tentId, name));
      if !serverOk {
        name := tentName;
      }
    }

    /** `handleKeyDown`: Enter saves, Escape closes the input and restores the
        name, other keys change nothing. */
    method KeyDown(key: string, serverOk: bool) returns (call: Option<RenameCall>)
      modifies this
      ensures key == "Escape" ==> call == None && !isEditingName && name == tentName
      ensures key != "Enter" && key != "Escape" ==>
        call == None && isEditingName == old(isEditingName) && name == old(name)
      ensures key == "Enter" && Blank(old(name)) ==>
        call == None && isEditingName == old(isEditingName) && name == old(name)
      ensures key == "Enter" && !Blank(old(name)) ==>
        && !isEditingName
        && call == (if old(name) == tentName then None else Some(RenameCall(tentId, old(name))))
        && name == (if old(name) != tentName && !serverOk then tentName else old(name))
    {
      if key == "Enter" {
        call := SaveName(serverOk);
      } else if key == "Escape" {
        isEditingName := false;
        name := tentName;
        call := None;
      } else {
        call := None;
      }
    }
  }
}
