/** The states of threads and events in GNU Pth. */
module PthTypes {

  datatype ThreadState = New | Ready | Waiting | Dead

  datatype Status = Pending | Occurred | Failed
}
