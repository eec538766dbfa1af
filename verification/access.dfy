/**
 * The web app's entry point decides which page a visitor sees: the main page
 * for an address on the authorised list, the no-access page for anyone else.
 * The list and the visitor's address are inputs here; reading them from the
 * spreadsheet and the session is not part of this model.
 */
module Access {

  /** The action doGet derives from the visitor's address. */
  function Action(users: seq<string>, email: string): (action: string)
    ensures action == "authenticated" <==> email in users
    ensures action == "noaccess" <==> email !in users
  {
    if email in users then "authenticated" else "noaccess"
  }

  /** The template the switch on the action renders. */
  function TemplateFor(action: string): (template: string)
    ensures action == "noaccess" ==> template == "noaccess"
    ensures action == "authenticated" ==> template == "index"
    ensures action != "noaccess" && action != "authenticated" ==> template == "default"
  {
    match action
    case "noaccess" => "noaccess"
    case "authenticated" => "index"
    case _ => "default"
  }

  /**
   * The page doGet renders: the main page exactly for a listed address, the
   * no-access page exactly for any other, and never the default page.
   */
  function DoGet(users: seq<string>, email: string): (template: string)
    ensures template == "index" <==> email in users
    ensures template == "noaccess" <==> email !in users
    ensures template != "default"
  {
    TemplateFor(Action(users, email))
  }

  /** Adding addresses to the list never takes the main page away from anyone. */
  lemma ListingMoreNeverRevokes(users: seq<string>, more: seq<string>, email: string)
    ensures DoGet(users, email) == "index" ==> DoGet(users + more, email) == "index"
    ensures DoGet(users, email) == DoGet(more + users, email) || email in more
  {
  }
}
