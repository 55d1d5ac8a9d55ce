/** The global alert (store/AlertStore.ts): a visibility flag, a message and its type. */
module AlertStore {

  datatype AlertType = Success | Error

  class AlertState {
    var isVisible: bool
    var message: string
    var alertType: AlertType

    /** The hidden alert: not visible, no message, type success. */
    predicate IsHidden()
      reads this
    {
      !isVisible && message == "" && alertType == Success
    }

    constructor()
      ensures IsHidden()
    {
      isVisible, message, alertType := false, "", Success;
    }

    /** `showAlert(message, type = 'success')`. */
    method ShowAlert(message: string, alertType: AlertType := Success)
      modifies this
      ensures isVisible && this.message == message && this.alertType == alertType
    {
      isVisible, this.message, this.alertType := true, message, alertType;
    }

    /** `hideAlert()`: back to the hidden alert from any state, so hiding twice is hiding once. */
    method HideAlert()
      modifies this
      ensures IsHidden()
    {
      isVisible, message, alertType := false, "", Success;
    }
  }
}
