/**
 * The entities the registry works with. Java compares Prefs, groups, enum
 * classes and listeners by identity, so each is a class; a parameter typed with
 * `?` may be `null`, as the Java argument may.
 */
module PreferTypes {

  /** An enum class (`Class<K>`), the identity of a group's key type. */
  class EnumClass {
    constructor () { }
  }

  /**
   * An enum constant: the enum class that declares it, its name, and the class
   * `getClass()` returns for it at run time. That is the declaring class itself,
   * except for a constant with its own class body, whose run-time class is an
   * anonymous subclass.
   */
  datatype EnumKey = EnumKey(enumClass: EnumClass, name: string, runtimeClass: EnumClass)

  /**
   * A Pref: a typed setting under an enum key. Its value lives in the external
   * preference store and is passed to the model as a function.
   */
  class Pref {
    const key: EnumKey

    constructor (key: EnumKey)
      ensures this.key == key
    {
      this.key := key;
    }
  }

  /** A Pref group: the Prefs of one enum key class. */
  class PrefGroup {
    const keyClass: EnumClass

    constructor (keyClass: EnumClass)
      ensures this.keyClass == keyClass
    {
      this.keyClass := keyClass;
    }
  }

  /** An `OnValueChanged` listener, known only by its identity. */
  class ValueListener {
    constructor () { }
  }

  /** An `OnGroupValueChanged` listener, known only by its identity. */
  class GroupListener {
    constructor () { }
  }

  /** The exceptions the registry raises. */
  datatype PreferError =
    | NullArgument(message: string)   // NullPointerException from `checkNotNull`
    | NotInitialized(message: string) // PreferNotInitializedException
    | GroupAlreadyAdded(group: PrefGroup)
}
