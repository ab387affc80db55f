// Player: a participant of the game, with a name, the colour of its discs and
// whether the computer moves for it.

module PlayerModel {

  class Player {
    var name: string
    var color: string
    var isAutomatic: bool

    /** Player::__construct: stores the three values as given; a player is manual unless told otherwise. */
    constructor (name: string, color: string, isAutomatic: bool := false)
      ensures this.name == name && this.color == color && this.isAutomatic == isAutomatic
    {
      this.name := name;
      this.color := color;
      this.isAutomatic := isAutomatic;
    }

    /** Player::getName */
    function GetName(): (r: string)
      reads this
      ensures r == name
    {
      name
    }

    /** Player::getColor */
    function GetColor(): (r: string)
      reads this
      ensures r == color
    {
      color
    }

    /** Player::getIsAutomatic */
    function GetIsAutomatic(): (r: bool)
      reads this
      ensures r == isAutomatic
    {
      isAutomatic
    }

    /** Player::setName: only the name changes. */
    method SetName(name: string)
      modifies this
      ensures this.name == name && color == old(color) && isAutomatic == old(isAutomatic)
    {
      this.name := name;
    }

    /** Player::setColor: only the colour changes. */
    method SetColor(color: string)
      modifies this
      ensures this.color == color && name == old(name) && isAutomatic == old(isAutomatic)
    {
      this.color := color;
    }

    /** Player::setIsAutomatic: only the automatic flag changes. */
    method SetIsAutomatic(isAutomatic: bool)
      modifies this
      ensures this.isAutomatic == isAutomatic && name == old(name) && color == old(color)
    {
      this.isAutomatic := isAutomatic;
    }
  }

  /** A player built without the third argument plays by hand. */
  method NewManualPlayer(name: string, color: string) returns (p: Player)
    ensures fresh(p) && p.name == name && p.color == color && !p.isAutomatic
  {
    p := new Player(name, color);
  }
}
