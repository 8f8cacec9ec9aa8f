/** The client-side routes the two pages navigate to. */
module Routes {

  datatype Route = SignIn | CreateCharacter | Dashboard {

    /** The path handed to `router.push`. */
    function Path(): string {
      match this
      case SignIn => "/sign-in"
      case CreateCharacter => "/create-character"
      case Dashboard => "/dashboard"
    }
  }
}
