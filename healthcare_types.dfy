/** The dashboard's domain records. */
module HealthcareTypes {
  import opened Wrappers

  datatype Role = Admin | Doctor | Patient | Nurse

  /** A signed-in staff member or patient account. */
  datatype Account = Account(
    id: string,
    name: string,
    email: string,
    role: Role,
    avatar: Option<string>,
    specialization: Option<string>,
    department: Option<string>)

  datatype PatientStatus = Active | Discharged | Critical

  datatype PatientRecord = PatientRecord(
    id: string,
    name: string,
    age: int,
    gender: string,
    email: string,
    phone: string,
    bloodType: string,
    lastVisit: string,
    status: PatientStatus,
    conditions: seq<string>)

  datatype AppointmentStatus = Pending | Approved | Completed | Cancelled

  datatype Appointment = Appointment(
    id: string,
    patientName: string,
    patientId: string,
    doctorName: string,
    doctorId: string,
    date: string,
    time: string,
    kind: string,
    status: AppointmentStatus,
    notes: Option<string>)

  datatype Message = Message(
    id: string,
    senderId: string,
    senderName: string,
    senderRole: Role,
    receiverId: string,
    receiverName: string,
    content: string,
    timestamp: string,
    read: bool)

  datatype RecordType = Consultation | LabResult | Prescription | Imaging

  datatype MedicalRecord = MedicalRecord(
    id: string,
    patientId: string,
    date: string,
    diagnosis: string,
    prescription: string,
    doctorName: string,
    notes: string,
    kind: RecordType)
}
