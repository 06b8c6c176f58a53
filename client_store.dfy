/**
 * The process-wide slot holding the currently selected client. It starts
 * empty and `SetClient` overwrites it with whatever it is given, absent
 * included, without validation.
 */
module ClientStore {
  import opened Wrappers

  /** A client (user) that can be selected. */
  datatype Client = Client(id: string, name: string)

  class ClientSlot {
    /** The `clientStore` signal's value. */
    var current: Option<Client>

    /** The slot starts empty. */
    constructor ()
      ensures current == None
    {
      current := None;
    }

    /** `setClient`: the slot afterwards holds exactly `client`; no earlier value is kept. */
    method SetClient(client: Option<Client>)
      modifies this
      ensures current == client
    {
      current := client;
    }
  }
}
